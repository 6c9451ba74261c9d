# Pi Mob bridge: a verified model

Pi Mob's bridge keeps a durable, replayable protocol of commands and events in SQLite and serves it to
phones over WebSockets. This project models the in-process logic of that protocol and proves what it
keeps over every run:

- **The journal** (`Cursors`, `Journal`, `JournalProofs`, `Acknowledgements`, `Maintenance`): append-only
  streams with decimal-string cursors, acknowledgements, and the compactor that deletes an acknowledged
  prefix of each stream under a row budget and a byte budget.
- **Synchronisation** (`Streams`, `StreamProofs`, `Snapshots`, `Subscription`, `SubscriptionProofs`,
  `SubscriptionWitnesses`, `WireFrames`, `Tracker`, `HistoryPages`): the choice between current, replay
  and snapshot, the splice of a subscription's replay into the live tail of a socket, a client that goes
  by the frames it is sent, and backward history paging.
- **Commands and leases** (`Canonical`, `CanonicalProofs`, `JsonText`, `JsonReader`, `CommandIdentity`,
  `Lanes`, `Commands`, `CommandProofs`, `CommandOutcomes`, `Leases`, `LeaseControl`): idempotent
  acceptance, at-most-once dispatch through per-scope lanes with crashes and recoveries, the causes of
  every outcome, and fenced controller leases.
- **The process supervisor** (`Supervisor`, `SupervisorProofs`, `SupervisorExact`): capacity with eviction,
  ticks, the crash-loop detector and draining.
- **Attachments** (`Attachments`, `AttachmentProofs`, `AttachmentExact`), the **follow-up queue**
  (`FollowUps`, `FollowUpExact`), the **limiters** (`SlidingWindow`, `TokenBucket`, `RateQuota`,
  `Coalescing`) and **line clipping** (`LineClip`).

Each file's classes carry the source's fields, and their methods change them step by step; every such
method is tied to a function of the old state, and the theorems are about those functions and their
runs. A transaction is one atomic step: an error inside it leaves the tables as they were. Clocks,
identifiers, hashes, Unicode normalisation, the size of a frame and the adapter's answers are
parameters. Cursors are natural numbers everywhere but in `Cursors`, which shows that canonical decimal
strings, as text, as SQL compares them and as numbers, are the same ordered set.

Where the code and what it says of itself disagree, the model follows the code, and a lemma says when
the promise is kept:

- `Coalescing.LifetimeCeilingFailsExactly`, `Coalescing.SessionCeilingIsNotForLife`: the per-session ceiling
  is called a lifetime ceiling, but a sweep or a drop forgets the count. It is kept for life by a session
  that is never forgotten (`Coalescing.UnforgottenKeepsToCeiling`).
- `FollowUps.CapHoldsExactly`, `FollowUps.CapIsPassedByRequeue`: the cap of ten waiting items is checked when
  an item is enqueued, not when a claimed one is put back or recovered.
- `RateQuota.ResetHoldsExactly`, `RateQuota.ResetIsTooEarly`, `RateQuota.ResetIsTooEarlyWitness`: refused
  uploads count too, so the reset time given to a refused caller is too early unless several calls shared
  the oldest stamp.
- `SubscriptionProofs.ContiguousExactlyWithoutRepeatedReplay`, `SubscriptionWitnesses.RepeatedEntryWitness`: the
  wire of a stream is contiguous if and only if its subscription did not ask for two replays of it.
- `SubscriptionProofs.WireExact`, `SubscriptionWitnesses.ReusedIdWitness`: what is buffered during a sync is
  filtered by event id, and a compacted id can be taken again, so an event that takes one is lost. Nothing
  is lost when ids are never used twice (`SubscriptionProofs.NewIdsAreUnrepeated`).
- `LineClip.MatchStartIsOffsetExactly`, `LineClip.MatchStartWitness`: the byte offset of a match is exact if
  and only if the match does not begin inside a surrogate pair of the window.
- `AttachmentProofs.CompleteNeverFinishes`: an explicit completion never has work left to do, because
  the last chunk already completes the upload.
- `AttachmentProofs.RetainShortensExactly`, `AttachmentProofs.RetainShortensWitness`: retention, described as an
  extension, can shorten the life of an attachment when completed uploads are kept for more than seven
  days. At the default of 24 hours it never does (`AttachmentProofs.RetainNeverShortens`).
- `SupervisorProofs.TransitionKeepsExactly`, `SupervisorProofs.UnsafeTransitionWitness`: `transition` keeps
  processes and states consistent exactly on the moves that do not leave or enter the live states by
  themselves.

## Model

| member | source | states |
|---|---|---|
| Cursors.OrdersAgree | packages/protocol-schema/src/index.ts:3218-3236 | On all canonical decimal strings the comparison of the schema package, the SQL predicates on length and text, and the order of the numbers agree. |
| Cursors.ParsePrint | packages/bridge/src/core/store.ts:718-728 | Every number prints as a canonical cursor that stands for it. |
| Cursors.PrintParse | packages/bridge/src/core/store.ts:282-285 | Printing the number that a canonical cursor stands for gives the cursor back. |
| Cursors.NextCursorIsSuccessor | packages/bridge/src/core/store.ts:718-728 | Parse, add one, print gives a canonical cursor greater than the old one with no canonical cursor in between. |
| Journal.BridgeStore.constructor | packages/bridge/src/core/store.ts:306-309 | A new store has no streams, acknowledgements or credentials and is writable. |
| Journal.BridgeStore.EnsureStream | packages/bridge/src/core/store.ts:710-716 | Creates a stream at cursor 0 with floor 0, or leaves an existing one as it is. |
| Journal.BridgeStore.AppendEvent | packages/bridge/src/core/store.ts:718-729 | Appends at current + 1 exactly when the stream exists and the event id is new; a taken id fails the insert, rolls back and turns the store read-only. |
| Journal.BridgeStore.AckCursor | packages/bridge/src/core/store.ts:1142-1142 | Records exactly the acknowledged cursor for the installation and stream and changes nothing else; answers ok, read-only or, for an unknown stream, a failed insert; refuses any other text without change. |
| Journal.BridgeStore.ReadReplay | packages/bridge/src/core/store.ts:815-820 | The stream's position and the rows with cursors in (after, current]. |
| Journal.LowestAck | packages/bridge/src/core/store.ts:1098-1111 | A lower bound of the acknowledgements, clamped to the current cursor, that is one of them or that cursor. |
| Journal.BridgeStore.SafeCursor | packages/bridge/src/core/store.ts:1098-1111 | The fold over the acknowledgement rows computes their clamped minimum. |
| Journal.BridgeStore.SelectVictims | packages/bridge/src/core/store.ts:1113-1124 | The loop selects the longest leading run of candidates within the byte budget and reports its bytes. |
| Journal.BridgeStore.CompactOne | packages/bridge/src/core/store.ts:1091-1137 | One stream's turn: its rows up to the greatest selected cursor go and its floor moves there, or it is reported blocked, or nothing happens. |
| Journal.BridgeStore.CompactLegacyEvents | packages/bridge/src/core/store.ts:1080-1140 | A whole pass over the streams in some order, its budget checks, and the rows, bytes and blocked streams it reports. |
| JournalProofs.SelectExact | packages/bridge/src/core/store.ts:755-759 | The range query returns each row of the interval once, in cursor order, and no other. |
| JournalProofs.RangeDeleteIsSelectedPrefix | packages/bridge/src/core/store.ts:1126-1134 | In any table, gaps or not, the range delete removes exactly the selected rows. |
| JournalProofs.FitCountIsGreatest | packages/bridge/src/core/store.ts:1118-1124 | The selected run fits the byte budget and would not with one more row. |
| JournalProofs.VictimsExact | packages/bridge/src/core/store.ts:1113-1124 | The victims are the events straight after the floor, within both budgets, and one more would break a budget or pass the safe cursor. |
| JournalProofs.CompactStreamExact | packages/bridge/src/core/store.ts:1091-1137 | A turn moves the floor to the safe cursor, or to the last row that a budget allows, and touches no other stream. |
| JournalProofs.PassAdvances | packages/bridge/src/core/store.ts:1080-1140 | A pass only moves floors up, never past what usable credentials acknowledged, and stays within its row and byte budgets. |
| JournalProofs.PassAccounts | packages/bridge/src/core/store.ts:1080-1140 | The rows and bytes a pass reports are exactly what left the journal. |
| JournalProofs.NoProgressExactly | packages/bridge/src/core/store.ts:1080-1140 | A pass deletes nothing if and only if no stream can give up even its first row. |
| JournalProofs.JournalExact | packages/bridge/src/core/store.ts:718-753 | Over every run of appends, acknowledgements and compactions each stream holds exactly its events with cursors in (floor, current]. |
| Acknowledgements.AcksAreTheLast | packages/bridge/src/core/store.ts:1142-1142 | Over every run the table holds, for each installation and stream, the cursor of the last acknowledgement taken, and no row when there was none. |
| Acknowledgements.CredentialsAreTheLast | packages/bridge/src/core/store.ts:1098-1111 | Over every run the credential of an installation is the one last given to it. |
| Acknowledgements.FloorFollowsAcks | packages/bridge/src/core/store.ts:1080-1140 | Over every run a pass moves no floor past what an installation with a usable credential last acknowledged, and none for which there is no such installation. |
| Acknowledgements.AcknowledgedTailIsKept | packages/bridge/src/core/store.ts:1080-1140 | Over every run, what an installation with a usable credential last acknowledged is safe: after a pass every later event is kept, and a sync from there gives exactly those events. |
| Acknowledgements.AcknowledgedPrefixGoes | packages/bridge/src/core/store.ts:1080-1140 | When a pass finds nothing to delete and no row is too large, everything that all those installations acknowledged is gone. |
| Acknowledgements.BlockedExactly | packages/bridge/src/core/store.ts:1098-1111 | A pass reports as blocked only streams that keep events and that no such installation ever acknowledged, and all of them when it ends within its budgets. |
| Acknowledgements.WritableExactly | packages/bridge/src/core/store.ts:718-729 | The store turns read-only at the first insert that fails, and at nothing else. |
| Acknowledgements.HistoryIsAppends | packages/bridge/src/core/store.ts:710-729 | Up to the first failure the streams are those created, and their histories what was appended to them since. |
| StreamProofs.CompactOnce | packages/bridge/src/daemon.ts:821-841 | One pass at the default budgets shrinks the journal by what it reports, moves no floor past its safe cursor, and reports nothing only when every stream is settled. |
| Maintenance.RowsAreConserved | packages/bridge/src/core/store.ts:1080-1140 | Over every run the rows that passes reported and the rows kept are together the events appended. |
| Maintenance.ProgressIsBounded | packages/bridge/src/daemon.ts:821-841 | Whatever is appended or acknowledged between the passes, the loop hurries at most once for each event ever appended. |
| Maintenance.RestingMeansSettled | packages/bridge/src/daemon.ts:821-841 | A pass after which the loop rests, at any point of any run, found every stream settled. |
| Maintenance.EveryPassIsSafe | packages/bridge/src/core/store.ts:1080-1140 | No pass, at any point of any run, moves a floor back or past what usable credentials had acknowledged. |
| Maintenance.RunLegacyCompaction | packages/bridge/src/daemon.ts:821-841 | With anything appended, acknowledged or revoked between its passes, and passes at any times, the loop performs exactly that in order, and comes to rest with every stream settled, after no more passes than there were batches of other work and events ever appended, and one. |
| StreamProofs.SettledMeansCaughtUp | packages/bridge/src/core/store.ts:1098-1137 | A settled stream that keeps no row above the byte budget has its floor at the lowest usable acknowledgement or above. |
| Snapshots.Fragment | packages/bridge/src/core/domain.ts:112-120 | The parts are numbered from 0, concatenate to the JSON, each fits the limit or is one character, and each is as long as possible; an empty text becomes one part with an empty object. |
| Snapshots.FragmentationIsMinimal | packages/bridge/src/core/domain.ts:112-120 | No other way to cut the text into fitting parts uses fewer parts. |
| Streams.StreamService.Sync | packages/bridge/src/core/domain.ts:96-123 | Answers current, replay or snapshot as the cursor decides, with a fragmentation of the state when a snapshot is required. |
| StreamProofs.SyncExact | packages/bridge/src/core/domain.ts:96-123 | A cursor at the end is current, one in [floor, current) gets a replay of exactly the events after it, and any other a snapshot at the current cursor with nothing left to replay. |
| StreamProofs.SyncOverRuns | packages/bridge/src/core/domain.ts:96-110 | Over every run the answer depends only on the history and the cursor, never on when compaction ran. |
| StreamProofs.CompactionIsInvisible | packages/bridge/src/core/store.ts:1080-1140 | A usable credential whose acknowledgement was in [floor, current] gets the same answer after a pass as before, and never a snapshot. |
| Tracker.StreamContinuityTracker.Apply | packages/bridge/src/core/domain.ts:130-137 | Answers duplicate, conflict, gap or applied from the stream's position, advances only on applied, and leaves other streams alone. |
| Tracker.StreamContinuityTracker.Reset | packages/bridge/src/core/domain.ts:138-138 | The stream is at the given cursor with nothing seen; other streams are untouched. |
| Tracker.AppliedIsContiguous | packages/bridge/src/core/domain.ts:128-139 | Under any loss, duplication and reordering of the journal, what was applied is a contiguous in-order segment of it and nothing is called a conflict. |
| Tracker.InOrderIsApplied | packages/bridge/src/core/domain.ts:128-139 | An in-order stretch from the tracker's own cursor is applied entirely. |
| Subscription.Runtime.Subscribe | packages/bridge/src/core/runtime.ts:296-342 | One atomic sync of every requested stream, the accepted streams and the messages in order, with an error message for a hidden, missing or badly addressed stream. |
| Subscription.SocketData.BeginSubscription | packages/bridge/src/core/server.ts:225-230 | The socket starts buffering and awaits the result; a refused request restores what was there. |
| Subscription.SocketData.OnStoreEvent | packages/bridge/src/core/server.ts:384-391 | A live event of a subscribed stream is buffered while syncing and sent once synchronized. |
| Subscription.SocketData.SendLiveEvent | packages/bridge/src/core/server.ts:311-322 | Sends the event if the subscription's detail shows it. |
| Subscription.SocketData.SortPending | packages/bridge/src/core/server.ts:246-246 | The buffered events without those already sent, in stream and cursor order, each as often as it was buffered. |
| Subscription.SocketData.CompleteSubscription | packages/bridge/src/core/server.ts:231-248 | The flush: the accepted frame, the result's messages, then the sorted buffer, after which the socket is live. |
| SubscriptionProofs.SortKeepsStreams | packages/bridge/src/core/server.ts:246-246 | Sorting the buffer keeps the events of each stream in the order they were appended. |
| SubscriptionProofs.EmittedIsGrowth | packages/bridge/src/core/store.ts:492-502 | What listeners hear of a stream is exactly what its history gained, in order. |
| SubscriptionProofs.WireExact | packages/bridge/src/core/server.ts:225-250 | The frames of a stream on the socket are its replays and then every event appended since the sync, however appends and compactions fall before and after the flush, if and only if none appended before the flush has the id of one already in the sync; otherwise they are fewer. |
| SubscriptionProofs.UncompactedIsUnrepeated | packages/bridge/src/core/store.ts:718-729 | Without a compaction between the sync and the flush no id is repeated, since a kept id is refused. |
| SubscriptionProofs.NewIdsAreUnrepeated | packages/bridge/src/core/server.ts:231-248 | Nor is one repeated, compactions or not, when appends after the sync use ids that no append used before it. |
| SubscriptionProofs.WireOfOneEntry | packages/bridge/src/core/server.ts:225-250 | For a stream asked for once the frames run without gap, duplicate or reorder from the client's cursor or the snapshot baseline to the journal's end, if and only if no id is repeated; otherwise they are fewer. |
| SubscriptionProofs.ClientCatchesUp | packages/bridge/src/core/domain.ts:96-139 | A client's tracker fed with the frames of a full stream ends at the journal's current cursor, having applied every frame, if and only if no id is repeated. |
| WireFrames.FramesExactly | packages/bridge/src/core/server.ts:225-250 | Every frame of a stream asked for once, in order: the statement that it is current, or the snapshot at the current cursor, or neither; the replay of what was missed; one completion with the way of the sync and the current cursor; then the live events. |
| WireFrames.PositionsExactly | packages/bridge/src/core/runtime.ts:320-342 | Of those frames exactly one is the completion; exactly one says current when the client is, and exactly one is a snapshot, at the history's length, when one is required. |
| WireFrames.ClientReadsUp | packages/bridge/src/core/domain.ts:96-139 | A client that goes by the frames alone, reset by a snapshot to its baseline, applies every event and ends at the journal's current cursor if and only if no id is repeated. |
| WireFrames.SubscribeExactly | packages/bridge/src/core/runtime.ts:296-342 | The accepted list and the error codes, in the order of the request. |
| WireFrames.ValidExactly | packages/bridge/src/core/runtime.ts:296-342 | A request is valid with the host stream in it, at most one session in full and at most five streams in summary. |
| SubscriptionProofs.ContiguousExactlyWithoutRepeatedReplay | packages/bridge/src/core/runtime.ts:296-342 | With a stream listed more than once and no id repeated, the wire is contiguous if and only if at most one accepted entry for it gives a cursor at the floor or above and below the current cursor. |
| SubscriptionWitnesses.RepeatedEntryWitness | packages/bridge/src/core/runtime.ts:296-342 | A request that names the host stream twice from its start passes the checks and is sent its one event twice. |
| SubscriptionWitnesses.ReusedIdWitness | packages/bridge/src/core/server.ts:231-248 | An event that is synced, acknowledged and compacted away before the flush, and a second one appended under its id: the second is never sent. |
| HistoryPages.Trim | packages/bridge/src/core/runtime.ts:827-836 | Keeps the newest events that fit 700 KiB, at least one, and as many as fit. |
| HistoryPages.TrimUnique | packages/bridge/src/core/runtime.ts:827-836 | No other trim keeps at least one event and as many as fit. |
| HistoryPages.SessionHistoryPage | packages/bridge/src/core/runtime.ts:796-853 | Refuses a bad page size, then an unknown session, then a token of another query, each with its error; otherwise the trimmed newest events below the token's cursor and the token for the rest. |
| HistoryPages.PageSplits | packages/bridge/src/core/runtime.ts:836-852 | A page and what its token leaves make up everything older, and there is no token exactly when nothing is left. |
| HistoryPages.PageBounded | packages/bridge/src/core/runtime.ts:827-836 | A page has at most the page size of events, and at most 700 KiB or one event. |
| HistoryPages.PageIsFull | packages/bridge/src/core/runtime.ts:827-852 | A page has the size asked for, or everything there is, or one event more would pass 700 KiB; there is a token exactly when something is left. |
| HistoryPages.OlderExactly | packages/bridge/src/core/store.ts:790-814 | What a page is cut from: the events kept below the cursor, each once, oldest first. |
| HistoryPages.WalkVisitsEverything | packages/bridge/src/core/store.ts:790-814 | Following the tokens to the end visits exactly the events of the first call, once each and in order, whatever is appended between the calls. |
| HistoryPages.WalkMustEnd | packages/bridge/src/core/runtime.ts:836-852 | Whatever happens to the stream between the calls, a walk whose pages all carry a token has no more pages than there are cursors below its start. |
| HistoryPages.FollowTokens | packages/bridge/src/core/runtime.ts:796-853 | Following the tokens comes to a page without one, over any sequence of states of the stream. |
| HistoryPages.WalkIsShort | packages/bridge/src/core/runtime.ts:838-852 | A finished walk made no more calls than there were events to visit, and one. |
| HistoryPages.WalkReadsTheJournal | packages/bridge/src/core/store.ts:790-814 | On a journal stream the walk reads the whole retained history (floor, current]. |
| HistoryPages.RunsGrow | packages/bridge/src/core/store.ts:718-753 | Any journal run without compaction only grows the streams it started with. |
| CanonicalProofs.NeighboursTellAll | packages/protocol-schema/src/index.ts:3242-3250 | After the sort, comparing neighbours finds every clash of normalized keys, however far apart they were. |
| CanonicalProofs.CanonicalKeepsMeaning | packages/protocol-schema/src/index.ts:3238-3254 | Canonicalizing fails exactly on values with a clash somewhere in them, and otherwise keeps the value's meaning. |
| CanonicalProofs.SameMeaningSameForm | packages/protocol-schema/src/index.ts:3238-3254 | Values that mean the same have the same canonical form, whatever the order and spelling of their keys. |
| CanonicalProofs.FormTellsMeaning | packages/protocol-schema/src/index.ts:3238-3254 | Two values have one canonical form if and only if they mean the same. |
| CanonicalProofs.Idempotent | packages/protocol-schema/src/index.ts:3238-3254 | A canonical form is its own canonical form. |
| CanonicalProofs.OrderMeansNothing | packages/protocol-schema/src/index.ts:3241-3244 | Permuting the entries of an object changes neither its meaning nor whether it has a clash. |
| CanonicalProofs.SpellingMeansNothing | packages/protocol-schema/src/index.ts:3238-3244 | Replacing keys by ones with the same normal form and values by ones that mean the same changes nothing, at any depth. |
| CanonicalProofs.ReorderedRetryHasTheSameForm | packages/protocol-schema/src/index.ts:3238-3265 | An object with its own keys in another order has the same canonical form, or fails alike. |
| CanonicalProofs.RewrittenHasTheSameForm | packages/protocol-schema/src/index.ts:3238-3254 | Respelling keys and strings and reordering the keys of any object, however deep, changes neither the canonical form nor the refusal. |
| CanonicalProofs.FormTellsRewriting | packages/protocol-schema/src/index.ts:3238-3254 | Two values have one canonical form if and only if the one is such a rewriting of the other. |
| JsonReader.TextTellsValue | packages/protocol-schema/src/index.ts:3261-3265 | Two values have one JSON text if and only if they are one value. |
| JsonReader.StringifyTells | packages/protocol-schema/src/index.ts:3261-3265 | A printed value can be read off the front of a text: which value it is and where it ends. |
| JsonText.StringifyWellFormed | packages/protocol-schema/src/index.ts:3261-3271 | The JSON text has no lone surrogates, so its UTF-8 form loses nothing of it. |
| JsonReader.RoundTrip | packages/protocol-schema/src/index.ts:3261-3265 | A reader after the grammar of RFC 8259 reads the JSON text of any value back as that value. |
| CommandIdentity.HashTellsMeaning | packages/protocol-schema/src/index.ts:3261-3271 | With a hash that keeps apart the texts that UTF-8 does, two commands have one semantic hash if and only if they are of one type and one payload is the other rewritten. |
| CommandIdentity.RetryIsDuplicateExactly | packages/bridge/src/core/domain.ts:44-51 | A retry under a known command ID changes nothing, and is a duplicate if and only if it is of the same type and its payload means the same as the first; otherwise it is a conflict. |
| CommandIdentity.ReorderedPayloadIsDuplicate | packages/bridge/src/core/store.ts:1032-1036 | A payload with its top-level keys in another order has the hash of the first. |
| CommandIdentity.RewrittenPayloadHasTheHash | packages/protocol-schema/src/index.ts:3261-3271 | A payload rewritten at any depth has the hash of the first, or is refused with it. |
| CommandIdentity.RewrittenRetryIsDuplicate | packages/bridge/src/core/domain.ts:44-51 | A retry with a payload rewritten at any depth is a duplicate and changes nothing. |
| Lanes.CommandLanes.Enqueue | packages/bridge/src/core/domain.ts:30-36 | A task is chained to the last task of its key, or to nothing, and becomes the key's last. |
| Lanes.CommandLanes.Finally | packages/bridge/src/core/domain.ts:34-34 | A settled task's lane is forgotten exactly when it is still the last one. |
| Commands.DurableCommandService.TransitionCommand | packages/bridge/src/core/store.ts:1048-1056 | Moves the command and logs the event when its state is among those expected, and otherwise answers null and changes nothing. |
| Commands.DurableCommandService.Submit | packages/bridge/src/core/domain.ts:44-51 | A new command is accepted with its lease mutation in one step and queued in its lane; a known one is a duplicate or a conflict by its hash. |
| Commands.DurableCommandService.Dispatch | packages/bridge/src/core/domain.ts:54-60 | The callback up to its await: claim, run, and hand a non-local command to the adapter. |
| Commands.DurableCommandService.Settle | packages/bridge/src/core/domain.ts:60-68 | The callback after its await: a running command becomes completed, failed or indeterminate as the adapter answered, with that one event. |
| Commands.DurableCommandService.Recover | packages/bridge/src/core/domain.ts:71-76 | Marks commands in flight indeterminate and queues every accepted one again, in order of creation. |
| CommandProofs.DispatchedAtMostOnce | packages/bridge/src/core/domain.ts:44-76 | Over every run with duplicates, crashes, also part-way through a recovery, and repeated recoveries the adapter is called at most once per command, the dispatch count is 0 exactly when accepted and 1 otherwise, and the event log replays to the table. |
| CommandProofs.LanesAreFifo | packages/bridge/src/core/domain.ts:28-37 | Over every run, tasks of one scope run in the order they were enqueued and never overlap. |
| CommandProofs.LaneIsNeverStuck | packages/bridge/src/core/domain.ts:28-37 | Over every run, the oldest unsettled task of a scope has started or may start. |
| CommandProofs.TerminalForever | packages/bridge/src/core/store.ts:1048-1064 | Completed, failed and indeterminate never change again. |
| CommandOutcomes.TrailExactly | packages/bridge/src/core/domain.ts:44-76 | Over every run a command is in the last of the states that the operations put it in, and its events are those states, in order, each once, on its own stream. |
| CommandOutcomes.OutcomesExactly | packages/bridge/src/core/domain.ts:54-76 | Over every run a command is completed, failed or indeterminate if and only if, while it was running, its call was so answered, or it is a local command that came to its end, or a fault was caught, or a recovery found it in flight. |
| CommandOutcomes.ResolvedExactly | packages/bridge/src/core/domain.ts:54-68 | A command for the adapter is completed if and only if its call was answered by resolving while it was running. |
| CommandOutcomes.SubmissionsExactly | packages/bridge/src/core/domain.ts:44-51 | Over every run the commands are those submitted and taken, with the kind, scope, stream and hash of that submission. |
| CommandOutcomes.SubmitExact | packages/bridge/src/core/store.ts:1032-1042 | When a new command is accepted, and the rows, the lease change and the events that come with it. |
| CommandOutcomes.CallsExactly | packages/bridge/src/core/domain.ts:54-60 | Over every run the adapter is called for exactly the non-local commands whose tasks got to their call. |
| CommandOutcomes.CallbackExactly | packages/bridge/src/core/domain.ts:54-68 | A callback leaves a command that is no longer accepted alone, completes a local one, and leaves any other running with its call made, each with exactly those events. |
| CommandOutcomes.LeasesFollow | packages/bridge/src/core/store.ts:1032-1042 | Over every run the leases are those that the accepted submissions asked for, with one controller event for each. |
| CommandOutcomes.RecoveryInOrder | packages/bridge/src/core/domain.ts:71-76 | A recovery queues every accepted command once, in the order of creation, behind what is in its lane. |
| CommandProofs.RecoveryRequeuesAll | packages/bridge/src/core/domain.ts:71-76 | After a recovery every accepted command waits in its own lane and none is in flight. |
| CommandProofs.DrainedMeansSettled | packages/bridge/src/core/domain.ts:53-76 | After a recovery and a run without store faults, drained lanes leave no command accepted, dispatched or running. |
| CommandProofs.DispatchIsSteps | packages/bridge/src/core/domain.ts:54-60 | The callback up to its await is a claim and, if that succeeds, two more steps of the run. |
| CommandProofs.DrainLanes | packages/bridge/src/core/domain.ts:53-76 | Whatever the adapter answers, serving the oldest task until none is left settles every command. |
| Leases.LeaseTable.ApplyMutation | packages/bridge/src/core/store.ts:1148-1163 | Acquire, takeover and release with the reclaim rule, and the refusal of a live lease. |
| Leases.LeaseTable.Renew | packages/bridge/src/core/store.ts:1167-1173 | Extends a lease that is current, unexpired and held by the connection, and refuses any other. |
| Leases.LeaseTable.Disconnect | packages/bridge/src/core/store.ts:1174-1175 | Marks the connection's unrevoked leases, of one scope or of all. |
| Leases.LeaseTable.ReleaseLease | packages/bridge/src/core/store.ts:1176-1182 | Revokes the lease that matches in every respect, and refuses otherwise. |
| Leases.LeaseTable.AssertController | packages/bridge/src/core/domain.ts:147-150 | Passes exactly for the current lease of the scope, held by the connection, unrevoked and unexpired. |
| Leases.OneController | packages/bridge/src/core/domain.ts:147-150 | At every reachable state at most one (lease, connection) pair passes per scope. |
| Leases.RunKeepsOneActive | packages/bridge/src/core/store.ts:1148-1182 | Over every run of mutations, renewals, disconnects and releases a scope has at most one unrevoked lease. |
| Leases.RevokedForever | packages/bridge/src/core/store.ts:1148-1182 | A revoked lease never changes, passes or renews again. |
| Leases.GrantFencesOthers | packages/bridge/src/core/store.ts:1148-1163 | A grant fences every earlier holder of the scope for ever. |
| Leases.LostExactly | packages/bridge/src/core/store.ts:1148-1182 | An unexpired lease is lost if and only if the step is a takeover, a release by its own connection, or a reclaim by its installation after a disconnect. |
| Leases.ReclaimNeedsDisconnect | packages/bridge/src/core/store.ts:1148-1175 | A lease is open to reclaim only after a disconnect of its own connection, measured from the last one. |
| Leases.ExpiredForever | packages/bridge/src/core/store.ts:1167-1173 | On a non-decreasing clock an expired lease never controls again. |
| LeaseControl.GrantGivesControl | packages/bridge/src/core/store.ts:1148-1163 | A granted lease controls its scope on its own connection for exactly 45 seconds, and no other lease or connection does. |
| LeaseControl.GrantedExactly | packages/bridge/src/core/store.ts:1148-1163 | An acquisition is granted if and only if it is a takeover, nobody holds the scope, the lease has expired, or it is open to the installation to reclaim. |
| LeaseControl.GrantRevokesTheHolder | packages/bridge/src/core/store.ts:1148-1163 | What becomes of the lease that a grant replaces, and the reason recorded. |
| LeaseControl.RenewalGivesControl | packages/bridge/src/core/store.ts:1167-1173 | A renewal is the holder's alone, before expiry, and gives control until exactly 45 seconds from then. |
| LeaseControl.ReleaseExactly | packages/bridge/src/core/store.ts:1148-1155 | The holder can always let go, nobody else can, and then nobody controls the scope. |
| LeaseControl.ReclaimedExactly | packages/bridge/src/core/store.ts:1148-1175 | After a disconnect the installation gets the scope back for exactly 60 seconds or once the lease has expired; any other only once it has expired. |
| LeaseControl.DisconnectedExactly | packages/bridge/src/core/store.ts:1174-1175 | A disconnect touches no lease of another connection or scope, and of its own only the disconnect and reclaim times. |
| LeaseControl.HolderExactly | packages/bridge/src/core/store.ts:1148-1182 | Over every run of any operations a lease controls a scope if and only if it is the one that a simple account of that scope's single holder names, on its connection, and in time. |
| SlidingWindow.RecordedIsWindow | packages/bridge/src/core/process-supervisor.ts:194-196 | Pruning loses nothing: recording on the pruned list gives the window of the full history. |
| SlidingWindow.FewPass | packages/bridge/src/core/process-supervisor.ts:194-205 | Fewer than the limit of events pass in any stretch as long as the window. |
| Supervisor.ProcessSupervisor.RegisterSession | packages/bridge/src/core/process-supervisor.ts:124-127 | Adds a session in the given state with no process, or changes nothing. |
| Supervisor.ProcessSupervisor.FindVictim | packages/bridge/src/core/process-supervisor.ts:153-153 | The first eligible idle session in order of activity. |
| Supervisor.VictimIsLeastRecentlyActive | packages/bridge/src/core/process-supervisor.ts:153-153 | The victim is idle without attention and no eligible session was active longer ago. |
| Supervisor.ProcessSupervisor.StartSession | packages/bridge/src/core/process-supervisor.ts:141-173 | The start, its refusals in order, its eviction and its failed spawn. |
| Supervisor.ProcessSupervisor.TransitionSession | packages/bridge/src/core/process-supervisor.ts:175-181 | The move through the transition table, the attention it sets even when refused, and the stop of an idle session while draining. |
| Supervisor.ProcessSupervisor.OnUnexpectedExit | packages/bridge/src/core/process-supervisor.ts:187-206 | The crash: pruned stamps, then crash loop, stop while draining, or retry. |
| Supervisor.ProcessSupervisor.RetryManually | packages/bridge/src/core/process-supervisor.ts:208-214 | Clears the stamps, leaves a crash loop and starts. |
| Supervisor.ProcessSupervisor.Tick | packages/bridge/src/core/process-supervisor.ts:216-224 | Stops idle sessions past their timeout and starts due retries, session by session. |
| Supervisor.ProcessSupervisor.StopSession | packages/bridge/src/core/process-supervisor.ts:226-245 | The stopped entry, with or without a process. |
| Supervisor.ProcessSupervisor.DrainHost | packages/bridge/src/core/process-supervisor.ts:247-256 | Stops every idle session without attention and lets no start through. |
| SupervisorProofs.RefusedExactly | packages/bridge/src/core/process-supervisor.ts:141-157 | A start is refused for capacity if and only if the host is full and nothing is eligible, and then no entry changes. |
| SupervisorProofs.StartExact | packages/bridge/src/core/process-supervisor.ts:141-173 | A start changes its own session and, only when the host is full, stops the least recently active eligible one. |
| SupervisorProofs.TransitionKeepsExactly | packages/bridge/src/core/process-supervisor.ts:175-181 | The invariant survives a transition if and only if the move stays within what a process allows. |
| SupervisorProofs.UnsafeTransitionWitness | packages/bridge/src/core/process-supervisor.ts:175-181 | A reachable idle session that a transition puts in the crashed state still holds its process. |
| SupervisorProofs.RegisterKeepsExactly | packages/bridge/src/core/process-supervisor.ts:124-127 | Registering keeps the invariant if and only if the session is known or its state needs no process, and never changes the live count. |
| SupervisorProofs.ApplyKeeps | packages/bridge/src/core/process-supervisor.ts:124-268 | Every operation keeps a process held exactly in the live states and the live count within capacity. |
| SupervisorProofs.CapacityHolds | packages/bridge/src/core/process-supervisor.ts:141-173 | Over every run live processes never exceed capacity. |
| SupervisorProofs.DrainingNeverRises | packages/bridge/src/core/process-supervisor.ts:247-256 | Once draining begins the number of live processes never rises until a reboot. |
| SupervisorProofs.DrainStopsTheIdle | packages/bridge/src/core/process-supervisor.ts:247-256 | A drain leaves live only sessions that are busy or want attention. |
| SupervisorProofs.StampsAreWindow | packages/bridge/src/core/process-supervisor.ts:187-214 | Over every run the pruned stamps are the full crash history since the last manual retry, cut to the window. |
| SupervisorProofs.CrashVerdict | packages/bridge/src/core/process-supervisor.ts:194-206 | A crash enters the crash loop if and only if the limit of crashes since the last manual retry falls in the window ending with it. |
| SupervisorProofs.FewAutomaticRetries | packages/bridge/src/core/process-supervisor.ts:187-224 | Over every run on a non-decreasing clock, the crashes since the last manual retry that left a session waiting for an automatic restart are fewer than the limit in any window, or none. |
| SupervisorExact.StartEffect | packages/bridge/src/core/process-supervisor.ts:141-173 | Every answer of a start in the order of its checks, the entry it leaves, and whom it stops: one who rests longest, when the host is full. |
| SupervisorExact.TurnExactly | packages/bridge/src/core/process-supervisor.ts:216-224 | The turn of one session in a tick: stopped when it has rested too long, started when its retry is due and there is or can be room, no longer waiting when refused, and otherwise left alone. |
| SupervisorExact.TickIsTurns | packages/bridge/src/core/process-supervisor.ts:216-224 | A tick is these turns, one after the other in the order of registration. |
| SupervisorExact.TickExactly | packages/bridge/src/core/process-supervisor.ts:216-224 | What a whole tick makes of each session; one that is neither resting nor due is as it was. |
| SupervisorExact.RoomyTick | packages/bridge/src/core/process-supervisor.ts:216-224 | With room for every session a tick starts every one whose retry is due, stops every one that has rested too long, and touches no other. |
| SupervisorExact.RetryComesDue | packages/bridge/src/core/process-supervisor.ts:187-224 | A crashed session below the limit is up again with the first tick that comes no earlier than the retry delay, and not before. |
| SupervisorExact.MovesExactly | packages/bridge/src/core/process-supervisor.ts:81-93 | The transition table, read by the state that is entered. |
| SupervisorExact.RetryEffect | packages/bridge/src/core/process-supervisor.ts:208-214 | A manual retry forgets the crashes, leaves the crash loop and starts as any start does. |
| SupervisorExact.DrainEffect | packages/bridge/src/core/process-supervisor.ts:247-256 | A drain stops every session that rests and no other. |
| SupervisorExact.ProcessesWithinCapacity | packages/bridge/src/core/process-supervisor.ts:141-157 | Over every run no more sessions hold a process than the capacity. |
| Attachments.AttachmentStore.Begin | packages/bridge/src/core/attachments.ts:389-446 | The checks, the idempotent answer or conflict for a known retry identity, the cap on open uploads, and the new row. |
| Attachments.AttachmentStore.AppendChunk | packages/bridge/src/core/attachments.ts:503-600 | Every branch of the append, the automatic completion with its hash, and that a refused last chunk leaves the row as it was. |
| Attachments.AttachmentStore.StreamingHash | packages/bridge/src/core/attachments.ts:622-638 | Hashing the stored chunks in order is hashing their concatenation. |
| Attachments.AttachmentStore.CompleteUpload | packages/bridge/src/core/attachments.ts:644-671 | Every branch of the explicit completion. |
| Attachments.AttachmentStore.Abort | packages/bridge/src/core/attachments.ts:677-694 | Every branch of the abort. |
| Attachments.AttachmentStore.Retain | packages/bridge/src/core/attachments.ts:814-825 | A complete row's expiry moves up to the time asked for, but not past seven days from now. |
| Attachments.AttachmentStore.Sweep | packages/bridge/src/core/attachments.ts:710-742 | The two scans, the ids removed and the bytes reported. |
| Attachments.AttachmentStore.OpenReadStream | packages/bridge/src/core/attachments.ts:871-893 | Opens on a complete attachment only, with all of its content still to come. |
| Attachments.ReadStream.Next | packages/bridge/src/core/attachments.ts:898-921 | Each slice is the next bytes, not empty and at most the slice size, and the end comes when none are left. |
| AttachmentProofs.SweepExact | packages/bridge/src/core/attachments.ts:710-742 | A sweep expires the open and complete rows whose time has come and touches no other. |
| AttachmentProofs.SweepReclaimsTheDrop | packages/bridge/src/core/attachments.ts:710-786 | The bytes a sweep reports are the drop in the retained total. |
| AttachmentProofs.RunKeeps | packages/bridge/src/core/attachments.ts:389-742 | Every reachable row has gap-free chunks, received bytes that are their sum, fewer than declared while open, and when complete the hash of the concatenation, equal to any expected one; ids and retry identities are unique and the cap on open uploads holds. |
| AttachmentExact.BeginEffect | packages/bridge/src/core/attachments.ts:389-446 | Every answer of a beginning, and the empty upload that it leaves until its time is up. |
| AttachmentExact.AppendEffect | packages/bridge/src/core/attachments.ts:503-600 | Every answer to a chunk, told by the bytes that the upload holds, and what it holds then. |
| AttachmentExact.UnknownEffect | packages/bridge/src/core/attachments.ts:503-825 | Every operation on an id that nobody was given is refused and changes nothing. |
| AttachmentExact.CompleteEffect | packages/bridge/src/core/attachments.ts:644-671 | Every answer of an explicit completion. |
| AttachmentExact.AbortEffect | packages/bridge/src/core/attachments.ts:677-694 | Every answer of an abort, and what it leaves. |
| AttachmentExact.RetainEffect | packages/bridge/src/core/attachments.ts:814-825 | The new expiry is the later of the old one and the one asked for, but no more than seven days from now. |
| AttachmentExact.SweptExactly | packages/bridge/src/core/attachments.ts:710-742 | A sweep reports each upload that it ends once, and no other. |
| AttachmentProofs.CompleteNeverFinishes | packages/bridge/src/core/attachments.ts:644-671 | An explicit completion never changes a valid table, and succeeds exactly on complete uploads. |
| AttachmentProofs.RetainShortensExactly | packages/bridge/src/core/attachments.ts:814-825 | Retaining changes one expiry, honours the time asked for up to seven days from now, and shortens a life if and only if it already reached past that. |
| AttachmentProofs.RetainNeverShortens | packages/bridge/src/core/attachments.ts:814-825 | Over every run on a non-decreasing clock, no retain shortens a life when completed uploads are kept for at most seven days. |
| AttachmentProofs.RetainShortensWitness | packages/bridge/src/core/attachments.ts:814-825 | When they are kept for longer, a retain straight after the upload shortens its life. |
| AttachmentProofs.RunFollows | packages/bridge/src/core/attachments.ts:389-742 | Over every run a row keeps its place and promises, its bytes only grow, and from completion on its content and hash never change. |
| AttachmentProofs.BeginIsIdempotent | packages/bridge/src/core/attachments.ts:417-430 | Beginning again under a retry identity, after anything else, answers with the first id and adds nothing. |
| AttachmentProofs.UploadArrivesWhole | packages/bridge/src/core/attachments.ts:503-600 | However a client cuts its bytes and whatever else happens before the expiry, sending the pieces in order completes the upload with exactly those bytes if and only if no other hash was promised; otherwise only the last piece is refused. |
| AttachmentProofs.PromisedBytes | packages/bridge/src/core/attachments.ts:577-592 | When equal hashes mean equal bytes, a complete upload holds the bytes whose hash was promised. |
| AttachmentProofs.ReadAll | packages/bridge/src/core/attachments.ts:871-933 | Draining the stream yields exactly the content for every slice size. |
| AttachmentProofs.ReadUpload | packages/bridge/src/core/attachments.ts:503-933 | What a client uploaded, cut as it pleased and amid whatever else, is what is read back under its id, at any later time and for every slice size, until it has expired. |
| FollowUps.FollowUpQueue.Enqueue | packages/bridge/src/core/store.ts:1247-1257 | Refused exactly when ten items wait or the id is taken; otherwise the item goes to the end of its session's queue. |
| FollowUps.FollowUpQueue.NewPosition | packages/bridge/src/core/store.ts:1251-1251 | The greatest position of the session plus one is one more than that of the last item in the queue. |
| FollowUps.FollowUpQueue.ListFollowUps | packages/bridge/src/core/store.ts:1258-1261 | The waiting items in queue order. |
| FollowUps.FollowUpQueue.ClaimNext | packages/bridge/src/core/store.ts:1279-1288 | The first waiting item of the queue becomes dispatching, in place. |
| FollowUps.FollowUpQueue.Finish | packages/bridge/src/core/store.ts:1289-1297 | A claimed item goes, or waits again in place; any other id changes nothing. |
| FollowUps.FollowUpQueue.Remove | packages/bridge/src/core/store.ts:1262-1270 | Removes a waiting item of the session, and refuses any other. |
| FollowUps.FollowUpQueue.Clear | packages/bridge/src/core/store.ts:1271-1278 | Removes and returns the waiting items and keeps the claimed ones. |
| FollowUps.FollowUpQueue.Recover | packages/bridge/src/core/store.ts:1298-1300 | Every claimed item of every session waits again in place. |
| FollowUps.QueueIsInOrder | packages/bridge/src/core/store.ts:1247-1300 | Over every run the outstanding items stand in the order of enqueuing, each with the message it was enqueued with. |
| FollowUps.ClaimTakesTheOldest | packages/bridge/src/core/store.ts:1279-1288 | A claim takes the item that was enqueued before every other one waiting. |
| FollowUps.RequeueUndoesClaim | packages/bridge/src/core/store.ts:1279-1297 | A claimed item put back leaves the queue exactly as it was. |
| FollowUps.LeavesExactly | packages/bridge/src/core/store.ts:1262-1300 | An item leaves if and only if its claim is finished for good, or it is removed or cleared while waiting. |
| FollowUpExact.StepExactly | packages/bridge/src/core/store.ts:1247-1300 | Which items are in the queue after each operation, as what, and that they stand by position. |
| FollowUpExact.RunsExactly | packages/bridge/src/core/store.ts:1247-1300 | Over every run each operation does exactly that. |
| FollowUpExact.WaitingInOrder | packages/bridge/src/core/store.ts:1258-1261 | The list of what waits has each waiting item once, in the order of the queue. |
| FollowUps.OutstandingIsBounded | packages/bridge/src/core/store.ts:1247-1300 | With at most k claims at a time there are never more than 10 + k items outstanding. |
| FollowUps.CapIsPassedExactly | packages/bridge/src/core/store.ts:1247-1300 | From at most ten waiting items a step leads to more if and only if it puts a claimed item back into a full queue, or recovers when more than ten are outstanding. |
| FollowUps.CapHoldsExactly | packages/bridge/src/core/store.ts:1247-1300 | Over a run at most ten items ever wait if and only if the run has no such step. |
| FollowUps.CapIsPassedByRequeue | packages/bridge/src/core/store.ts:1247-1300 | A run from the empty queue that puts a claimed item back and leaves eleven items waiting in a queue capped at ten. |
| Coalescing.Coalescer.Decide | packages/bridge/src/notifications/coalesce.ts:72-119 | Every branch of the decision and the state it leaves. |
| Coalescing.Coalescer.Sweep | packages/bridge/src/notifications/coalesce.ts:132-151 | Stale states go, the oldest above the cap go, old minute buckets go, and the count of all three is reported. |
| Coalescing.EveryMinuteIsCounted | packages/bridge/src/notifications/coalesce.ts:72-151 | Every bucket that can still be counted into tells how many notifications went into it, and no bucket ever saw more than the ceiling; a sweep never reopens one. |
| Coalescing.SweptExactly | packages/bridge/src/notifications/coalesce.ts:132-151 | A sweep forgets the session states older than the cutoff and no other, unless more than ten thousand are younger; then it keeps ten thousand, the youngest. |
| Coalescing.SweptMinutesExactly | packages/bridge/src/notifications/coalesce.ts:132-151 | A minute of a device is forgotten if and only if it was over before the retention began. |
| Coalescing.AtMostTwiceTheCeiling | packages/bridge/src/notifications/coalesce.ts:72-151 | A device gets at most the ceiling in a minute and at most twice the ceiling in any 60 seconds. |
| Coalescing.RefusedForTheMinuteExactly | packages/bridge/src/notifications/coalesce.ts:81-113 | An event is refused for its device exactly when its minute is full and nothing about its session refuses it first. |
| Coalescing.SessionCeilingHolds | packages/bridge/src/notifications/coalesce.ts:98-119 | Between two times that a session's state is forgotten it is notified at most as often as the ceiling, or once. |
| Coalescing.ShownExactly | packages/bridge/src/notifications/coalesce.ts:72-119 | An event is shown if and only if its device has room in its minute and its session is unknown, or has room in its count and is not held to the interval. |
| Coalescing.LifetimeCeilingFailsExactly | packages/bridge/src/notifications/coalesce.ts:72-151 | Over every run a session gets more notifications in its life than the ceiling if and only if an event of it is shown when it has had that many. |
| Coalescing.UnforgottenKeepsToCeiling | packages/bridge/src/notifications/coalesce.ts:72-151 | A session that no drop or sweep forgets keeps to the ceiling for life. |
| Coalescing.LastIsRemembered | packages/bridge/src/notifications/coalesce.ts:98-124 | What is remembered of a session is the notification last shown for it, at its time or later. |
| Coalescing.RepeatsKeepTheirDistance | packages/bridge/src/notifications/coalesce.ts:101-119 | A kind is shown twice in a row only after the minimum interval, and an event held back names the notification on show. |
| Coalescing.SessionCeilingIsNotForLife | packages/bridge/src/notifications/coalesce.ts:132-137 | A run, with a sweep that the real one can make, in which a session with a ceiling of one is notified twice. |
| TokenBucket.SocketTokens.ConsumeToken | packages/bridge/src/core/server.ts:382-382 | Refills by 0.01 a millisecond up to 20 and takes a token if there is a whole one. |
| TokenBucket.BurstIsBounded | packages/bridge/src/core/server.ts:382-382 | Any stretch of calls passes at most 20 plus one for each 100 ms between its first and last. |
| TokenBucket.SlowSenderNeverRefused | packages/bridge/src/core/server.ts:382-382 | A client that keeps 100 ms between messages is never refused. |
| TokenBucket.BurstExactly | packages/bridge/src/core/server.ts:382-382 | Of messages sent at once to a full bucket exactly twenty pass. |
| RateQuota.RateQuotaTracker.CanUpload | packages/bridge/src/auth/rate-quota.ts:68-87 | The window rewritten on every call, refused ones included, and the outcome in the order of the checks, each under exactly its own condition. |
| RateQuota.StampsAreTheLastMinute | packages/bridge/src/auth/rate-quota.ts:70-74 | The kept stamps are all calls of the last minute. |
| RateQuota.AtMostTheLimit | packages/bridge/src/auth/rate-quota.ts:68-87 | No minute, wherever it starts, sees more than the limit of uploads pass. |
| RateQuota.ResetHoldsExactly | packages/bridge/src/auth/rate-quota.ts:74-77 | After any calls, a refused caller that stays silent until exactly the reset time passes if and only if fewer calls than the limit came after the oldest one counted. |
| RateQuota.ResetIsTooEarly | packages/bridge/src/auth/rate-quota.ts:74-77 | When no two calls came at one time the reset time is always too early. |
| RateQuota.ResetIsTooEarlyWitness | packages/bridge/src/auth/rate-quota.ts:74-77 | Calls at 0, 1 and 60 seconds with a limit of one: the second and the third are refused. |
| LineClip.ByteLengthIsUtf8 | packages/bridge/src/core/workspace-files.ts:115-134 | The unit-by-unit length is that of the UTF-8 form of the code points. |
| LineClip.ClipLineText | packages/bridge/src/core/workspace-files.ts:115-134 | The two binary searches find the window, and the offset is the length of what stands before the match. |
| LineClip.WindowFitsExactly | packages/bridge/src/core/workspace-files.ts:115-134 | The window is at most 4096 bytes if and only if the match is, and is the bare match when it is not. |
| LineClip.WindowIsWidest | packages/bridge/src/core/workspace-files.ts:115-134 | No window that takes in more on either side fits. |
| LineClip.WindowIsUnique | packages/bridge/src/core/workspace-files.ts:115-134 | The line and the match determine the window. |
| LineClip.WindowHoldsMatch | packages/bridge/src/core/workspace-files.ts:115-134 | The window is the text before the match, the match and the text after it. |
| LineClip.MatchStartIsOffsetExactly | packages/bridge/src/core/workspace-files.ts:133-133 | The offset is that of the match in the UTF-8 form of the window if and only if the match does not begin inside a surrogate pair of the window. |
| LineClip.MatchStartWitness | packages/bridge/src/core/workspace-files.ts:115-134 | A dotted capital I and an emoji, matched from inside the emoji: the only window is the whole line of 6 bytes, and the offset answered is 5, with 3 bytes from there on by the same count. |

## Left out

- SQLite itself, WAL, migrations, backup and restore, blob files and renames: tables are maps and sequences, blobs are byte sequences.
- `setRetentionFloor`, `discardSession`, `removeSessionSummary` and purge: they overwrite or cascade stream state and do not keep the journal invariant.
- `appendEventIdempotent`, `latestEvent` and `pageEvents`: further readers and writers of the same tables.
- Storage failures other than a failed constraint: a busy or full database is not modelled, nor is maintenance mode.
- Journal.BridgeStore.CompactLegacyEvents: the order of the streams is any order, where the source uses that of their ids; the results hold for every order.
- Maintenance.RunLegacyCompaction: the timer's delays and the closing of maintenance are left out.
- Subscription.Runtime.Subscribe: the frames of a snapshot's parts count as one frame, and the mobile transformations of events and snapshots are identities.
- Subscription.SocketData.CompleteSubscription: a send that fails, slow consumers, back pressure and closing are not modelled; an event above the frame limit is replaced by an error frame, as in the source.
- Subscription.SocketData.SortPending: stream ids that the collation does not tell apart are ordered by cursor, where the source leaves them as they came; no two ids of the protocol collate alike.
- SubscriptionProofs.WireExact: the next message of the socket is read only after the flush. A stream whose sync was refused stays in the socket's table, so its live events still go out; contiguity is claimed for accepted streams.
- HistoryPages.SessionHistoryPage: the signature and encoding of a token are one binding to session and page size, and the bounding of a single event's payload is inside the size of an item.
- HistoryPages.WalkVisitsEverything: compaction between the calls is excluded, since it removes events that were there at the first call.
- CommandIdentity.HashTellsMeaning: SHA-256 is assumed free of collisions, as some functions are (`CommandIdentity.LettersAreCollisionless`). A number stands for the text that JSON prints for it, so its many spellings are one, and one too large for a double, which prints as null, counts as null.
- Commands.DurableCommandService.Recover: commands of equal creation time keep the order of creation, and a crash drops the lanes but no table; a crash inside a recovery is an operation of the runs (`HaltOp`).
- Leases.LeaseTable.ApplyMutation: identifiers are drawn by the caller, and one that is taken is refused.
- Supervisor.ProcessSupervisor.StartSession: operations run to completion, so interleavings inside an await are not modelled; nor are diagnostics, forced cleanup, emitted events and `configure`.
- Attachments.AttachmentStore.Begin: identifiers, content types and file names arrive normalised, and the chunk size that is only echoed is left out.
- Attachments.AttachmentStore.AppendChunk: what the file system might do to bytes between write and read, and the check against it, are left out. A duplicate on a complete upload compares offsets only, so nothing is claimed about its bytes.
- Attachments.AttachmentStore.Abort: the blobs that an abort, an expiry or a sweep deletes stay in the row, where nothing reads them again.
- FollowUps.FollowUpQueue.Enqueue: the events emitted with each change, and the session's queue count, are left out; recovery emits none in the source. A taken identifier is refused without the store turning read-only.
- Coalescing.Coalescer.Sweep: which of several equally old states goes first is left open. Device and session identifiers are taken to contain no NUL, which the source joins them with.
- TokenBucket.SocketTokens.ConsumeToken: tokens are exact reals, without floating-point rounding.
- RateQuota.RateQuotaTracker.CanUpload: the byte totals of the attachment tables are parameters, so the prefix match that selects an installation's rows is not modelled.
- LineClip.ClipLineText: the search that finds the match, and its case folding, are left out.
- Workspace page tokens (a second walk like that of history pages) and directory walking, the bounding of one history payload, `listSessionSummaries`, dialogs, host policy, migrations of backend sessions, authentication, HTTP and WebSocket framing, image decoding, notification transports, and the mobile app.
