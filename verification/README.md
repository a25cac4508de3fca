# Clipboard transfer V2: a verified model

This project models the data path of clipboard transfer V2 and proves what it promises. A sender
streams the files of a batch over one socket; a bounded window says how far it may run ahead; the
receiver writes the files one after the other into a private stage, keeps a crash-safe journal beside
it, acknowledges cumulatively, and finally hands the verified files over as hard links to a
content-addressed store shared by all history profiles. Beside that path stand a few algorithms of
their own: typed framing, path rules, manifests, the job queue, chunk assembly, eviction, hash
closure and CF_HTML.

## How the model is built

Objects whose methods change their fields are Dafny classes with those fields; what is computed from
values is functions and lemmas. Where a method has a specification function, the function is the one
the lemmas are about, and the method's contract ties the two.

* Everything a lock protects is one atomic step, and a wait is one attempt. Time appears only as
  explicit clock values.
* A crash may strike between any two atomic file system steps. `IncomingTransferStage` and
  `ObjectStore` therefore keep, as ghost state, every persistent state they went through, and their
  invariants are about all of them; any two states of a stage that follow each other differ by a single
  file system operation. The object store also lets other threads take a turn after every single step:
  stages arrive and leave, leases link and unlink.
* SHA-256 is a function parameter. Where byte equality follows from equal hashes, injectivity is an
  explicit hypothesis. A transfer id is its number, a fingerprint of a source file is opaque, and the
  canonical JSON of a journal, receipt or manifest is the value itself.
* Both payload and acknowledgement channel are first-in first-out, as the one socket of
  `clipboard_transport_v2.py` makes them.

`FlowWindow`, `FlowControl`, `AckBatcher`, `FlowChannels` and `BoundedChunkQueue` are flow control.
`ResumeJournal` is the journal and its store, and `ResumePlans` the plan two journals yield; `Staging`,
`StageState`, `IncomingStage`, `TransferControl`, `Reopening`, `SenderStream` and `StageRuns` are the two
ends of a stream and their recovery.
`ObjectFiles`, `ObjectStore`, `ClipboardStore` and `Delivery` take a sealed stage into the history.
The other files are the algorithms beside them; `Common`, `Sums` and `Sequences` are shared.

## Where the code does not keep its promise

Each of these is stated as a theorem about the code as it is: a concrete case where it can be given,
and the exact condition under which the promise holds.

* Reopening a stage whose first incomplete file is empty and already has its `.part` leaves the stage
  waiting for bytes the sender never sends (`StageRuns.ResumeAgreement`, `StageRuns.BegunIsRecoverable`).
* Reopening a stage whose first incomplete file has a part but no durable byte leaves that file open
  at offset 0. A forced checkpoint then builds a journal the validator rejects, and the journal error
  escapes `pause`, `cancel` and the no-progress timeout with the stage still receiving. The timeout
  has fired and never fires again, so the wait is unbounded (`StageRuns.SilentPeer`,
  `StageRuns.ReopenedZero`, `StageRuns.StuckForEver`, `IncomingStage.IncomingTransferStage.Pause`, `IncomingStage.IncomingTransferStage.Cancel`).
* A file whose bytes do not have the hash the manifest announced makes `accept` raise a journal error
  with the stage still receiving (`IncomingStage.IncomingTransferStage.CompleteFile`).
* `finalize` can succeed only from the journal states that have an edge to `finalizing`; `failed` has
  none (`ResumeJournal.SuccessorsTable`, `IncomingStage.IncomingTransferStage.Finalize`). When that transition is refused the call
  fails, but the stage stays in phase finalizing. A failed journal whose files are all complete can
  therefore not be finalized after reopening, while one that still lacks bytes can
  (`StageRuns.ResumeAndFinalize`).
* A timeout's purge that fails removes the stage directory all the same. When its journal is still live
  the stage can then never be reopened (`StageRuns.FailedPurgeStrands`, `StageRuns.EveryPointReopens`).
* Cleaning up after a completed journal refuses a stage in which a crash undid a rename, although
  reopening a live stage puts the same thing right (`Delivery.UndoneRename`, `Delivery.CleanupCompleted`,
  `Delivery.Recover`). Only a POSIX system can undo it: `durable_replace` asks Windows to write through.
* `DeadlineTracker.progress` moves the deadline but does not re-arm a timeout that has fired, contrary
  to its documentation (`TransferControl.ProgressDoesNotRearm`).
* A process that dies while it installs a publication receipt leaves a `.publish-` file in the
  transfer's link directory. Releasing and discarding the links then refuse for ever, so the transfer
  can never be completed and its pins are never given up (`ObjectStore.ObjectStore.InstallReceipt`,
  `ObjectStore.ObjectStore.LitterBlocks`, `Delivery.Publish`, `Delivery.Recover`).
* The worker of the job queue looks at a job's status and writes it without the lock. A cancel that comes
  in between is overwritten: it reports success, and the job runs and may end completed
  (`TransferQueue.CancelIsOverwritten`, `TransferQueue.CancelledStays`).
* An acknowledgement that calls the transfer completed before everything is acknowledged, or that names
  any state but transferring for a file the window does not know, is refused and costs the channel
  (`FlowChannels.NoAckIsEverRefused`); the transport's receiver sends neither
  (`FlowChannels.PlainAcksNeverClose`).
* `mark_available` looks at no object; on a published row it is safe exactly when everything the row's
  manifest names is still there (`ClipboardStore.MarkingAvailable`).
* Replacing an object whose read failed would be safe only for an object nobody needs or pins
  (`ObjectFiles.UnlinkObject`).
* A shutdown that cancels everything pending still loses a job when it falls between the decision to
  retry and the scheduling of the retry: the job ends its turn as `retrying` and is forgotten
  (`TransferQueue.RetryRaceLoses`, `TransferQueue.LostExactly`).
* `abort` on a window that is already closed closes a newer window of the same id; the accounting
  holds all the same (`FlowControl.FlowControlCoordinator.Abort`).
* A manifest with nothing to verify, for example one of directories only, keeps its revision when it is
  finalized (`Manifest.FinalizeOnce`).
* Items that share an id make the size cap stop early: the second goes unnoticed with the first
  (`Eviction.SharedIds`).
* A CF_HTML payload that ends at or beyond 100,000,000 bytes does not read back as what was written
  (`CfHtml.BoundIsSharp`).
* Unmarked HTML whose first closing tag comes before the end of its first opening tag cannot be built
  at all, and text without such tags that already holds the end marker comes back cut short at it
  (`CfHtml.TaggedFragment`, `CfHtml.BareFragment`).

## Model

| member | source | states |
|---|---|---|
| FlowWindow.EveryRunKeepsAccounting | src/python/clipboard_flow_control_v2.py:443-511 | Over any run of opens, sends, resumes, acknowledgements, closes and shutdowns, all counts stay exact and within the limits, and in every open window the chunks of an entry lie end to end from its acknowledged to its next offset, durable never ahead of acknowledged |
| FlowWindow.StepKeepsInv | src/python/clipboard_flow_control_v2.py:223-511 | Every single step of the coordinator keeps that accounting invariant |
| FlowWindow.InflightIsTotalGap | src/python/clipboard_flow_control_v2.py:264-379 | The shared in-flight byte count is the sum over open windows of sent minus acknowledged offsets |
| FlowWindow.BytesAreGaps | src/python/clipboard_flow_control_v2.py:214-305 | The bytes one window holds in flight are exactly its gaps between sent and acknowledged |
| FlowWindow.TrackedKeepsInv | src/python/clipboard_flow_control_v2.py:264-305 | Tracking a sent chunk extends its entry by exactly that chunk |
| FlowWindow.AckKeepsWindowInv | src/python/clipboard_flow_control_v2.py:307-379 | An acknowledgement either closes the window or keeps it tiled; what it releases and discards is what leaves the byte count |
| FlowWindow.AckBoundary | src/python/clipboard_flow_control_v2.py:321-360 | An accepted acknowledgement falls on a chunk boundary, and what stays tiles from there on |
| FlowWindow.ClosedAckDrops | src/python/clipboard_flow_control_v2.py:340-379 | An acknowledgement that closes the window leaves nothing in flight |
| FlowControl.SendWindow.InitializeResume | src/python/clipboard_flow_control_v2.py:240-262 | Resuming an entry sets the window as the specification says, or refuses without a change |
| FlowControl.SendWindow.TrackSent | src/python/clipboard_flow_control_v2.py:264-305 | Window, shared byte count and outcome are those of the specification, for every argument; refused is exactly what is out of range, empty, too long for a frame or the shared limit, or does not follow what was sent |
| FlowWindow.WellFormedIs | src/python/clipboard_protocol.py:328-394 | An acknowledgement is well formed exactly when its numbers are in range, durable is not beyond verified, and at most 64 missing ranges follow, none empty and each behind the one before |
| FlowControl.SendWindow.ApplyAck | src/python/clipboard_flow_control_v2.py:307-379 | A malformed, foreign or out-of-range acknowledgement changes nothing; an accepted one changes exactly this window, its peer's count and the shared byte count |
| FlowControl.SendWindow.CheckAckTimeout | src/python/clipboard_flow_control_v2.py:381-388 | Reports a timeout exactly when the oldest unacknowledged chunk has waited for the configured time |
| FlowControl.FlowControlCoordinator.OpenTransfer | src/python/clipboard_flow_control_v2.py:457-481 | A window opens only within the global and per-peer limits, and both counts grow by one |
| FlowControl.FlowControlCoordinator.CloseTransfer | src/python/clipboard_flow_control_v2.py:483-497 | Closing a window returns its bytes and its peer's count; an unknown id changes nothing |
| FlowControl.FlowControlCoordinator.ShutDown | src/python/clipboard_flow_control_v2.py:499-511 | Shutdown closes every window and leaves all counts at zero |
| FlowControl.FlowControlCoordinator.Send | src/python/clipboard_flow_control_v2.py:264-305 | Sending through a window keeps the coordinator valid and is one step of the specification |
| FlowControl.FlowControlCoordinator.Receive | src/python/clipboard_flow_control_v2.py:307-379 | Applying an acknowledgement keeps the coordinator valid; a refused one changes nothing |
| FlowControl.FlowControlCoordinator.Abort | src/python/clipboard_flow_control_v2.py:412-413 | Abort closes by id, so on a closed window it closes a newer window of that id; the coordinator stays valid |
| FlowControl.FlowControlCoordinator.Admit | src/python/clipboard_flow_control_v2.py:457-481 | Opening keeps the coordinator valid and is one step of the specification |
| FlowControl.FlowControlCoordinator.Stop | src/python/clipboard_flow_control_v2.py:499-511 | Shutdown keeps the coordinator valid and closes every window |
| AckBatcher.CumulativeAckBatcher.RestoreEntry | src/python/clipboard_flow_control_v2.py:570-582 | A restored entry starts at its durable and verified offsets, or is refused |
| AckBatcher.CumulativeAckBatcher.RecordVerified | src/python/clipboard_flow_control_v2.py:584-618 | Batcher and reply after a verified chunk are those of the specification, whether it is silent, sends or refuses; refused is exactly what is out of range, empty without completing, of a complete file, not contiguous, or with a durable offset that goes back or beyond it |
| AckBatching.RefusedProgress | src/python/clipboard_flow_control_v2.py:584-610 | Refused progress changes no entry, but creates its own unless a number is out of range |
| AckBatcher.CumulativeAckBatcher.RecordDurable | src/python/clipboard_flow_control_v2.py:620-633 | Durable progress within the verified range is acknowledged at once, other progress is refused |
| AckBatcher.CumulativeAckBatcher.Poll | src/python/clipboard_flow_control_v2.py:635-641 | Polling acknowledges exactly the entries that have had something pending for a whole interval, each once, with all it has, in the order they were first seen; they have nothing pending then, and every other entry is as it was |
| AckBatching.PollExactly | src/python/clipboard_flow_control_v2.py:635-641 | The same of polling from any place in that order on |
| AckBatcher.CumulativeAckBatcher.Flush | src/python/clipboard_flow_control_v2.py:643-649 | Flushing acknowledges an entry exactly when something is pending |
| FlowChannels.StepKeepsAgree | src/python/clipboard_transport_v2.py:1311-1382 | Sender, both channels and receiver stay in agreement over every step of either, in every receiver state; a window that an acknowledgement closed, or that was aborted because it refused one, holds nothing and takes nothing more |
| FlowChannels.NoAckIsEverRefused | src/python/clipboard_flow_control_v2.py:307-379 | From one resume plan, over any interleaving and in any receiver states, an open window applies the next acknowledgement exactly when it does not claim completion before everything is acknowledged and, for a file the window does not know, says no more than transferring; only a closing state drops payload, a closed window holds nothing, and every chunk that arrives is accepted |
| FlowChannels.PlainAcksNeverClose | src/python/clipboard_transport_v2.py:1717-1770 | A receiver that only ever reports transferring, as the transport's does, never closes the window: none of its acknowledgements is refused and none drops payload |
| FlowChannels.NextChunkAccepted | src/python/clipboard_flow_control_v2.py:584-618 | The receiver's batcher accepts the next chunk of the channel |
| FlowChannels.StartedIsGood | src/python/clipboard_transport_v2.py:1302-1309 | Window and batcher started from the same plan agree |
| FlowChannels.DrainedWindow | src/python/clipboard_flow_control_v2.py:651-659 | Once both channels are empty fewer than an acknowledgement's worth of chunks and bytes is unacknowledged |
| FlowChannels.DrainedWindowHasRoom | src/python/clipboard_flow_control_v2.py:78-108 | With an acknowledgement batch no larger than the window, a drained window has room for another chunk as far as their number goes |
| FlowChannels.DrainedWindowAdmits | src/python/clipboard_flow_control_v2.py:264-305 | With limits that leave room for one batch of bytes and the payload beside the other transfers, a drained window admits the next chunk, so the two ends cannot wait for each other |
| FlowChannels.DefaultLimitsAdmit | src/python/clipboard_flow_control_v2.py:78-108 | The default limits leave that room: a transfer on its own never waits for an acknowledgement the receiver holds back |
| FlowChannels.LaterSubsumesEarlier | src/python/clipboard_flow_control_v2.py:307-379 | An acknowledgement makes every earlier one of its entry redundant |
| FlowChannels.LastAckAlone | src/python/clipboard_flow_control_v2.py:307-379 | A monotone run of acknowledgements leaves the window its last one alone would leave |
| ChunkQueue.BoundedChunkQueue.Put | src/python/clipboard_flow_control_v2.py:135-165 | An item is taken, refused as too large, refused by a closed queue, or would wait, each exactly when its condition holds; what was accepted and not taken is what is held, in order |
| ChunkQueue.BoundedChunkQueue.Get | src/python/clipboard_flow_control_v2.py:167-184 | The oldest held item comes out; the end is reported only when the queue is closed and empty |
| ChunkQueue.BoundedChunkQueue.Close | src/python/clipboard_flow_control_v2.py:186-198 | After a discarding close nothing is left for a consumer |
| ResumeJournal.ValidateEntries | src/python/clipboard_resume_v2.py:422-517 | The one pass with its running totals and blocked flag accepts exactly the entry lists that satisfy the declarative rule, and returns their totals |
| ResumeJournal.ValidMeansNoFault | src/python/clipboard_resume_v2.py:422-517 | An entry list is valid exactly when no entry of it has a fault |
| ResumeJournal.ValidateJournal | src/python/clipboard_resume_v2.py:520-593 | A journal is refused with the first fault of its checks, in their order, and accepted exactly when it is proper |
| ResumeJournal.JournalExactly | src/python/clipboard_resume_v2.py:422-580 | A journal passes exactly when its numbers are in range, its counts are those of its entries, every entry is what its kind and progress allow, progress is made one file after the other, and a completed incoming one has every file verified |
| ResumeJournal.StateUpdateExactly | src/python/clipboard_resume_v2.py:695-707 | A change of state yields the next generation, with the later time, exactly of a proper journal with generations left whose successor is proper |
| ResumeJournal.ProgressUpdateExactly | src/python/clipboard_resume_v2.py:710-733 | Progress of one received file changes that entry alone, under the same condition |
| ResumeJournal.FinalUpdateMeans | src/python/clipboard_resume_v2.py:735-762 | Every file becomes verified, and nothing else changes, only in a finalizing journal that has each of them complete with the given hash and no hash given of anything else |
| ResumeJournal.CompletedFilesFormAPrefix | src/python/clipboard_resume_v2.py:466-517 | In a valid incoming journal the files are complete ones, then at most one in progress, then untouched ones |
| ResumeJournal.ValidateTransition | src/python/clipboard_resume_v2.py:1084-1117 | A transition is refused with the first fault of the store's comparison, and accepted exactly when the one journal may follow the other, entry by entry |
| ResumeJournal.FollowsExactly | src/python/clipboard_resume_v2.py:1084-1117 | No fault is found exactly when only generation, time, retries, state and entries differ, the generation is the next, time and retries do not go back, the state may turn to the new one, and in every entry offsets, completion, hashes, prefixes and storage change only as they may |
| ResumeJournal.SuccessorsTable | src/python/clipboard_resume_v2.py:46-71 | The transition table, read target by target: the states each state is entered from |
| ResumeJournal.NoFinalizingAfterFailed | src/python/clipboard_resume_v2.py:68-69 | Between a failed journal and a later finalizing one there is a transferring, paused or waiting one |
| ResumeJournal.NothingRegresses | src/python/clipboard_resume_v2.py:1084-1130 | Over a run of commits generations are contiguous, durable offsets, completion and storage never go back and hashes never change |
| ResumeJournal.OneWritePerGeneration | src/python/clipboard_resume_v2.py:1119-1130 | Of two writers building on the same generation at most one succeeds |
| ResumeJournal.CompletedComesFromFinalizing | src/python/clipboard_resume_v2.py:46-71 | The completed state is entered only from finalizing |
| ResumeJournal.TerminalStates | src/python/clipboard_resume_v2.py:46-71 | A completed, cancelled or purging journal only stays or is purged |
| ResumeJournal.OldSchemaIsFirst | src/python/clipboard_resume_v2.py:1056-1082 | Only the first journal of a run can have the old schema |
| ResumeJournal.MigratedIsValid | src/python/clipboard_resume_v2.py:1056-1082 | Migrating a valid old journal gives a valid one that the store may link to it |
| ResumeJournal.CompletedMeansPublished | src/python/clipboard_resume_v2.py:520-586 | In a completed incoming journal every file is verified, whole and has its hash |
| ResumeJournal.PairYieldsPlan | src/python/clipboard_resume_v2.py:826-871 | Two journals yield a resume plan exactly when they match the manifest and each other and every file is resumable; the plan holds the receiver's evidence, in order |
| ResumePlans.PairPlan | src/python/clipboard_resume_v2.py:826-871 | A plan holds, for every file and nothing else, the receiver's durable offset and prefix hash, and no offset is beyond its file |
| ResumePlans.PairFitsWindow | src/python/clipboard_transport_v2.py:1302-1309 | Such a plan is one both flow-control ends can start from |
| ResumePlans.ResumedPairNeverRefuses | src/python/clipboard_flow_control_v2.py:307-379 | Started from the plan of a pair of journals, an open window applies every acceptable acknowledgement, and with a receiver that only reports transferring it never closes and none is refused, whatever happens |
| JournalStore.ResumeJournalStore.Create | src/python/clipboard_resume_v2.py:1011-1019 | A valid journal is created exactly when none exists and the write succeeds |
| JournalStore.ResumeJournalStore.Load | src/python/clipboard_resume_v2.py:1049-1082 | Loading returns the stored journal; an old one is migrated after a copy of it was kept, and each of its refusals, an exhausted generation, a copy that differs and a failed write, has its exact condition |
| JournalStore.ResumeJournalStore.Commit | src/python/clipboard_resume_v2.py:1119-1130 | A commit replaces the journal exactly when the generation is the expected one and the new journal may follow it; otherwise nothing changes. A failed journal is never replaced by a finalizing one |
| JournalStore.ResumeJournalStore.Purge | src/python/clipboard_resume_v2.py:1182-1199 | Purging removes exactly that journal |
| Staging.CrashIsRecoverable | src/python/clipboard_streaming_v2.py:649-736 | Whatever a crash does to the bytes beyond the durable prefix, the stage can be reopened |
| Staging.CheckpointRecoverable | src/python/clipboard_resume_v2.py:710-733 | A checkpoint of what the part holds is accepted by validator and store and keeps the stage recoverable |
| Staging.BadCheckpointInvalid | src/python/clipboard_resume_v2.py:710-733 | A checkpoint that cannot be recorded is refused by the validator |
| Staging.StateStep | src/python/clipboard_resume_v2.py:783-789 | A change of state alone is accepted exactly when the new state may be entered from the old one |
| Staging.FinalizeExactly | src/python/clipboard_resume_v2.py:735-762 | The generation that records every file as verified is accepted exactly when the journal is finalizing and the hashes are the durable ones |
| Staging.CreateKeeps | src/python/clipboard_streaming_v2.py:852-864 | Creating the part of the first open file keeps the stage recoverable |
| Staging.AppendKeeps | src/python/clipboard_streaming_v2.py:984-1000 | Appending to that part keeps the stage recoverable |
| Staging.TruncateKeeps | src/python/clipboard_streaming_v2.py:804-820 | Cutting it back to its durable length keeps the stage recoverable |
| Staging.RenameKeeps | src/python/clipboard_streaming_v2.py:1056-1080 | Giving a complete file its verified name keeps the stage recoverable, so it is always under exactly one of the two names |
| Staging.StorageStep | src/python/clipboard_streaming_v2.py:766-802 | Recording that a file was found under its verified name is allowed and keeps the stage recoverable |
| Staging.NewIsStageJournal | src/python/clipboard_resume_v2.py:653-692 | The journal of a new transfer is one a stage can start from |
| IncomingStage.IncomingTransferStage.Create | src/python/clipboard_streaming_v2.py:515-541 | A new stage starts receiving at the first entry that needs payload |
| IncomingStage.IncomingTransferStage.Attach | src/python/clipboard_streaming_v2.py:544-590 | A stage taken up from disk starts from its journal |
| IncomingStage.IncomingTransferStage.CommitJournal | src/python/clipboard_streaming_v2.py:738-749 | A commit succeeds only on the stored journal; a reported failure may have stored it |
| IncomingStage.IncomingTransferStage.SetJournalState | src/python/clipboard_streaming_v2.py:751-755 | One generation with another state, or an error with the old journal in place |
| IncomingStage.IncomingTransferStage.TerminalFailure | src/python/clipboard_streaming_v2.py:1206-1222 | The stage fails with the given code, a full disk told apart, and keeps its parts and its last checkpoint; on working storage a journal that is not over is stored as failed with the same entries, and the journal error of an exhausted journal is all that can escape instead |
| IncomingStage.IncomingTransferStage.CompleteFile | src/python/clipboard_streaming_v2.py:886-918 | A completed file is durable and closed; when its completion cannot be recorded, a journal error escapes with the stage unchanged |
| IncomingStage.IncomingTransferStage.AdvanceNonPayloadEntries | src/python/clipboard_streaming_v2.py:866-878 | Directories and empty files are completed and passed up to the next file with payload, and no byte count changes |
| IncomingStage.IncomingTransferStage.Checkpoint | src/python/clipboard_streaming_v2.py:920-960 | After a checkpoint the journal's durable offset is the written one; otherwise nothing changed, and then the open file is less than one interval of bytes ahead of its durable offset and the last checkpoint less than one interval of time ago. With neither interval reached nothing is recorded unless it is forced |
| IncomingStage.IncomingTransferStage.Accept | src/python/clipboard_streaming_v2.py:962-1020 | Only the next expected range of this transfer, with the right hash, is taken; it is appended exactly once, and the byte count grows by its length; anything else fails the stage, stored as failed, and touches no file. While the file stays open, its durable offset is less than one interval behind, and the reply says whether the journal was written and then reports the end of the chunk as durable |
| IncomingStage.IncomingTransferStage.RestorePart | src/python/clipboard_streaming_v2.py:804-820 | Reopening continues behind the durable prefix of the first open file |
| IncomingStage.IncomingTransferStage.RestoreComplete | src/python/clipboard_streaming_v2.py:766-802 | A complete file is brought under its verified name if the journal says so, and hashed again |
| IncomingStage.IncomingTransferStage.Restore | src/python/clipboard_streaming_v2.py:757-832 | Reopening any stage a crash can leave rebuilds position, hashes and byte count from journal and files: completed sizes plus the active offset |
| IncomingStage.IncomingTransferStage.Finalize | src/python/clipboard_streaming_v2.py:1022-1103 | Success means every file lies whole under its verified name with the sender's hash for it, and every byte was counted; with the evidence matching it succeeds exactly when the journal is created, transferring, paused, waiting, verifying or finalizing |
| IncomingStage.IncomingTransferStage.Seal | src/python/clipboard_streaming_v2.py:1051-1103 | The renames and the one generation that records them leave every file sealed; success means that the generation was written and that every rename that was needed worked, and a stream error fails the stage |
| IncomingStage.IncomingTransferStage.Persist | src/python/clipboard_streaming_v2.py:738-749 | Every persistent state differs from the one before it by one file system operation: the journal, the empty directory, or the name or content of one file |
| IncomingStage.IncomingTransferStage.CompletePublication | src/python/clipboard_streaming_v2.py:1105-1121 | The journal turns completed, and the stage directory goes file by file, only when the receipt is held; every disk on the way has the completed journal and part of the sealed files |
| IncomingStage.IncomingTransferStage.RecoverFinalization | src/python/clipboard_streaming_v2.py:1143-1153 | A stage that was finalizing is sealed again from its journal alone |
| IncomingStage.IncomingTransferStage.Pause | src/python/clipboard_streaming_v2.py:1252-1266 | Pausing keeps every byte, makes the open file durable to its end, and stores the journal as waiting for a reconnect or as paused, by its argument; it works exactly when no open file is still without a byte, and otherwise an error escapes and nothing changes. When a write was stored but reported as failed, what is stored is the paused journal with the same entries, and can be reopened |
| IncomingStage.IncomingTransferStage.Cancel | src/python/clipboard_streaming_v2.py:1268-1306 | Cancelling works in every live phase under the same condition, and keeps every byte; on working storage the stored journal is then cancelled, with the open file durable to its end |
| IncomingStage.IncomingTransferStage.AcknowledgeCancel | src/python/clipboard_streaming_v2.py:1308-1315 | An acknowledged cancel removes journal and stage exactly when nothing is stored any more or the stored journal may say purging and the write succeeds; otherwise the stage stays cancelled, with its final-acknowledgement timeout running |
| IncomingStage.IncomingTransferStage.Purge | src/python/clipboard_streaming_v2.py:1436-1465 | A purge removes stage and journal, after the journal said so, exactly when nothing is stored or the journal may say so and the write succeeds; a failed one leaves phase and journal |
| IncomingStage.IncomingTransferStage.PurgeOrRelease | src/python/clipboard_streaming_v2.py:1472-1485 | A timed-out purge ends purged in memory; when it fails, the failure is on record and the directory is removed whatever the journal says |
| IncomingStage.IncomingTransferStage.RemoveTree | src/python/clipboard_streaming_v2.py:1235-1239 | The directory goes one file after the other, and every disk on the way holds part of what was there |
| IncomingStage.IncomingTransferStage.CheckTimeouts | src/python/clipboard_streaming_v2.py:1317-1379 | A due timeout moves the stage to the next wait: silence stores a pause, an expired pause stores a failure, a late acknowledgement leaves disk and journal alone, and an expired preflight or cancel removes everything; with an open file without a byte it is spent without effect |
| IncomingStage.IncomingTransferStage.RunOut | src/python/clipboard_streaming_v2.py:1317-1379 | A stage that hears nothing more reaches a phase without a deadline in as many firings as its rank, at most two |
| StageState.ReceivedSoFar | src/python/clipboard_streaming_v2.py:984-1000 | While receiving, the byte count is the sizes of all files before the present one plus what arrived of it, never more than the transfer holds, and all of it once every entry is passed; no later phase changes the count |
| TransferControl.AtMostOneFiringPerEntry | src/python/clipboard_transfer_control_v2.py:119-149 | No wait times out twice without a new enter, whatever is called in whatever order |
| TransferControl.ProgressDoesNotRearm | src/python/clipboard_transfer_control_v2.py:127-149 | Progress after a firing moves the deadline but lets nothing fire |
| TransferControl.FiresExactlyWhenDue | src/python/clipboard_transfer_control_v2.py:119-149 | After any calls within one wait, a check reports the phase's timeout exactly when no check before it did and the time the settings allow the phase has passed since the last activity; three phases never time out |
| TransferControl.TimeoutsLowerRank | src/python/clipboard_transfer_control_v2.py:27-42 | Every timeout leads to a wait of lower rank, and rank zero is having none |
| TransferControl.DeadlineTracker.Enter | src/python/clipboard_transfer_control_v2.py:119-125 | Entering a phase arms its deadline and clears what fired |
| TransferControl.DeadlineTracker.Progress | src/python/clipboard_transfer_control_v2.py:127-132 | Progress moves only the deadline |
| TransferControl.DeadlineTracker.Check | src/python/clipboard_transfer_control_v2.py:139-149 | A check reports and remembers what fired |
| SenderStream.EmittedIsMissing | src/python/clipboard_streaming_v2.py:303-360 | The bytes emitted are exactly the bytes the receiver was missing |
| SenderStream.SequentialFileStream.Read | src/python/clipboard_streaming_v2.py:315-345 | A read returns some non-empty prefix of what was asked, or nothing at the end of the source |
| SenderStream.SequentialFileStream.ReadPrefix | src/python/clipboard_streaming_v2.py:303-330 | The durable prefix is hashed and not sent |
| SenderStream.SequentialFileStream.StreamFile | src/python/clipboard_streaming_v2.py:303-398 | One file yields the chunks that tile its missing part, exactly when source and prefix are as the plan says |
| SenderStream.SequentialFileStream.IterChunks | src/python/clipboard_streaming_v2.py:262-408 | The stream tiles every file's missing part in manifest order and vouches for all hashes, exactly when every source is unchanged; a stream is used once |
| Reopening.ReopensWhenIntact | src/python/clipboard_streaming_v2.py:757-832 | The checks of reopening are content exactly when the journal is not completed, cancelled or purging and every file it counts on is there |
| Reopening.NoFaultMeansTrue | src/python/clipboard_streaming_v2.py:757-832 | Whatever lies on a disk, if no check of reopening fails then nothing in it is corrupt: complete files lie under one name with the bytes their hashes vouch for, and so does the durable prefix of the first incomplete one |
| StageRuns.EveryPointReopens | src/python/clipboard_streaming_v2.py:544-590 | At a persistent state a stage ever went through, struck by any crash, all checks of reopening pass exactly when its journal is not completed, cancelled or purging and no failed purge had begun to remove the stage; within such a removal, exactly while everything the journal counts on is still there |
| StageRuns.OverForGood | src/python/clipboard_streaming_v2.py:555-557 | From the first persistent state with a completed, cancelled or purging journal on, no crash at any later state leaves anything that can be reopened |
| StageRuns.CancelIsFinal | src/python/clipboard_streaming_v2.py:1268-1306 | After a cancel on working storage the stored journal is cancelled, no crash of that disk can be reopened, and every byte is still there |
| StageRuns.PauseReopens | src/python/clipboard_streaming_v2.py:1252-1266 | After a pause on working storage any crash can be reopened, and the open file is durable up to the last byte received |
| StageRuns.AcceptThenCrash | src/python/clipboard_streaming_v2.py:920-960 | Whatever chunk was accepted, a crash right after it can be reopened and costs less than one checkpoint interval of the open file: everything before that is on disk as it was received |
| StageRuns.CompleteNeverChanges | src/python/clipboard_streaming_v2.py:738-749 | Over the whole life of a stage, whatever crashes do, a complete file stays complete and keeps every byte, under whichever of its two names it lies |
| StageRuns.OutdatedReopens | src/python/clipboard_streaming_v2.py:1252-1266 | When a pause was stored by a write that reported failure, the stored journal is ahead of the one in memory, which can store nothing more, and whatever a crash leaves can be reopened with the same entries |
| StageRuns.FailedPurgeStrands | src/python/clipboard_streaming_v2.py:1472-1485 | A run in which a cancel and its timeout's purge cannot be recorded: the directory is gone, the journal is live, and reopening is refused |
| StageRuns.HashesTieContent | src/python/clipboard_resume_v2.py:826-871 | Prefix hashes checked by the sender tie the receiver's bytes to the sender's files |
| StageRuns.ReceiveAll | src/python/clipboard_streaming_v2.py:962-1020 | A stage takes a whole stream and ends with every file equal to its source |
| StageRuns.Reopen | src/python/clipboard_streaming_v2.py:544-590 | Reopening puts the stage where its journal's durable bytes end |
| StageRuns.Restart | src/python/clipboard_streaming_v2.py:804-820 | Stage reopened from its journal and stream restarted from the plan of the two journals start at the same byte |
| StageRuns.ResumeAgreement | src/python/clipboard_streaming_v2.py:757-832 | With the plan of the two journals, for every short-read schedule, the reopened stage accepts each chunk and ends with every file equal to its source and only the missing bytes sent, exactly when no half-made empty file was left; the journal is then transferring, or as found if nothing was missing |
| StageRuns.SealedIsSource | src/python/clipboard_streaming_v2.py:1022-1103 | If finalize succeeds, every published file is the sender's file byte for byte |
| StageRuns.ResumeAndFinalize | src/python/clipboard_streaming_v2.py:1022-1103 | From a crash to a sealed transfer equal to the source: finalize succeeds exactly when no empty file was left half-made and either some file was incomplete or the found journal is created, transferring, paused, waiting, verifying or finalizing |
| StageRuns.RecoverFinalizing | src/python/clipboard_streaming_v2.py:1143-1153 | A crash at any rename or journal write of finalize is recovered by reopening and finalizing from the journal, every file keeps its bytes, and every disk on the way is again one of a stage that was being finalized, with nothing lost |
| StageRuns.SilentPeer | src/python/clipboard_streaming_v2.py:1317-1379 | A stage that hears nothing more ends its waits after at most two timeouts exactly when it has no open file without a byte; otherwise no later check ever fires |
| StageRuns.ReopenedZero | src/python/clipboard_streaming_v2.py:804-820 | Reopening leaves such a file whenever the first open file has a part and no durable byte; with working I/O and true hashes of empty files it does succeed |
| StageRuns.BegunIsRecoverable | src/python/clipboard_streaming_v2.py:804-820 | A concrete stage, struck just after a file was created, that meets both conditions |
| StageRuns.StuckForEver | src/python/clipboard_streaming_v2.py:1317-1379 | The whole run from that stage: reopened and left alone, it stays receiving and no timeout ever fires again |
| ObjectFiles.UnlinkObject | src/python/clipboard_object_store_v2.py:412-419 | Unlinking an object keeps every deliverable item and every pin whole exactly when no deliverable row needs it and no transfer pins it |
| ObjectFiles.UnlinkManifest | src/python/clipboard_object_store_v2.py:669-695 | The same for a manifest file |
| ObjectFiles.PinIsALink | src/python/clipboard_object_store_v2.py:630-640 | What is pinned has a link count of at least two |
| ObjectFiles.ProtectedIsHeld | src/python/clipboard_object_store_v2.py:427-429 | A published, uncommitted transfer has its manifest and all its objects |
| ObjectFiles.ProtectedStays | src/python/clipboard_object_store_v2.py:536-542 | It keeps them through every step that leaves its own links alone |
| ObjectFiles.SetIndexKeeps | src/python/clipboard_store.py:441-459 | An index may be written exactly when everything its deliverable rows name is present |
| ObjectFiles.DeedsHappen | src/python/clipboard_object_store_v2.py:633-640 | What other threads set out to do is done, unless the stage is the owner's, its place or the lease is taken, or the object is gone |
| ObjectFiles.DoneKeeps | src/python/clipboard_object_store_v2.py:633-640 | Stages that come and go and leases that link and unlink keep all that |
| ObjectStore.ObjectStore.PublishStagedTransfer | src/python/clipboard_object_store_v2.py:358-450 | Publishing succeeds exactly when evidence, stage and receipt fit: every file of the manifest is staged once, as the very file that was verified, with its size and hash, and no other publication has the transfer. It deletes nothing and leaves the transfer protected; every state on the way keeps everything deliverable, and a first publication goes through one with the receipt's temporary file |
| ObjectStore.ObjectStore.InstallReceipt | src/python/clipboard_object_store_v2.py:318-342 | The receipt is installed by way of a temporary file: some state on the way has it beside the links, which is what a crash then leaves |
| ObjectStore.ObjectStore.LitterBlocks | src/python/clipboard_object_store_v2.py:536-628 | With such a file beside the links neither releasing nor discarding succeeds, whoever asks, and neither changes anything |
| ObjectStore.ObjectStore.LinkFiles | src/python/clipboard_object_store_v2.py:402-444 | Every staged file ends up as an object with its bytes, pinned for the transfer |
| ObjectStore.ObjectStore.LinkManifest | src/python/clipboard_object_store_v2.py:445-446 | The manifest's text lies under its digest |
| ObjectStore.ObjectStore.DiscardPending | src/python/clipboard_object_store_v2.py:536-589 | Discarding removes the transfer's links exactly when the directory is empty or its receipt matches and nothing foreign lies in it; repeating it after any interruption works, since the receipt goes last |
| ObjectStore.ObjectStore.ReleaseCommittedPins | src/python/clipboard_object_store_v2.py:591-628 | A committed transfer's links are removed exactly when nothing foreign lies beside them, one after the other in any order, and the directory only when it is empty |
| ObjectStore.ObjectStore.References | src/python/clipboard_object_store_v2.py:642-668 | What is collected as referenced is what deliverable rows of any profile need |
| ObjectStore.ObjectStore.CollectGarbage | src/python/clipboard_object_store_v2.py:630-696 | Only what nobody needs or pins goes, and everything unreferenced that had a single link all the while goes, with all leftover temporary files; the count returned is how many names went |
| ClipboardStore.HeldIsIntact | src/python/clipboard_object_store_v2.py:452-475 | For an object under its hash, presence and size already imply the right bytes |
| ClipboardStore.ReceiptedIsHeld | src/python/clipboard_store.py:1125-1158 | A receipt in the index with its row proves that manifest and objects are there |
| ClipboardStore.CommittedRows | src/python/clipboard_store.py:1084-1117 | A commit leaves one row per item and a receipt for the item |
| ClipboardStore.CommittedMeans | src/python/clipboard_store.py:1094-1117 | A commit changes the payload of the item's row and nothing else of it; other rows leave only by the limits, other receipts stay |
| ClipboardStore.LoadingLosesNothing | src/python/clipboard_store.py:209-219 | Reloading an index never has to give up a published row |
| ClipboardStore.MarkingAvailable | src/python/clipboard_store.py:1218-1235 | Marking a row available is safe exactly when it has no published payload or everything its manifest names is there |
| ClipboardStore.EvictedExactly | src/python/clipboard_store.py:1549-1580 | Row by row: exactly the published, deliverable rows of the given contents are no longer deliverable, every other row is as it was, exactly the receipts of the retired items are dropped, and exactly those items are reported |
| ClipboardStore.NoReceiptForRetired | src/python/clipboard_store.py:1575-1580 | No receipt survives for an item that was retired |
| ClipboardStore.ClipboardStore.VerifyReceived | src/python/clipboard_store.py:1125-1158 | True exactly when index, receipt and row say so, and then the payload is there |
| ClipboardStore.ClipboardStore.CommitReceived | src/python/clipboard_store.py:1050-1123 | A commit succeeds exactly under its conditions; then the publication completes the announced manifest, and at first the announced row was there, unpublished, with the transfer bound to its receipt. A repetition finds the receipt and changes no index, and after every single step the transfer can still reach its end |
| ClipboardStore.ProperCompletes | src/python/clipboard_store.py:1060-1066 | A publication is taken for an announced manifest exactly when it has the same entries, keeps every hash that was there, hashes every file, and has the next revision unless nothing was missing |
| ClipboardStore.ClipboardStore.Evict | src/python/clipboard_store.py:1549-1580 | When the index is written it is the old one with exactly those rows and receipts retired, and the reported items are theirs |
| ClipboardStore.DeletedExactly | src/python/clipboard_store.py:1350-1357 | What is left are exactly the other rows in their order, and exactly their receipts |
| ClipboardStore.ClipboardStore.Delete | src/python/clipboard_store.py:1350-1357 | Deletes exactly the given rows, with their receipts; the others keep their order |
| ClipboardStore.ClipboardStore.RetireItem | src/python/clipboard_store.py:1516-1547 | Exactly the deliverable rows of the item's content are retired, deliverable rows of other contents stay as they are with manifest and objects held, and an object then stays only for a deliverable row or for a link somebody held meanwhile |
| Delivery.StagedFiles | src/python/clipboard_streaming_v2.py:1082-1103 | The evidence handed over covers the manifest's files and is true of what lies in the stage |
| Delivery.Publish | src/python/clipboard_streaming_v2.py:1123-1141 | The stage turns completed only when the index holds receipt and objects and no links are left; whatever a crash leaves of stage and store at any step can be taken up again, and it is delivered exactly when no interrupted receipt left its temporary file |
| Delivery.CleanupCompleted | src/python/clipboard_streaming_v2.py:1155-1194 | After a crash with a completed journal the stage is removed exactly when the durable receipt is there and the directory holds nothing but verified files; an interrupted removal is finished by the same call |
| Delivery.Recover | src/python/clipboard_streaming_v2.py:1143-1194 | From any such crash, sealing and publishing again or cleaning up reaches the same end, one row with its receipt, no links and no stage, exactly when the receipt left no litter and no file of a completed stage is back under its part name; and whatever a crash leaves of the recovery itself, at any step of it, can be recovered in the same way |
| Delivery.UndoneRename | src/python/clipboard_streaming_v2.py:1185-1192 | A run that ends with such a file: the stage is published and completed, a crash undoes one rename, and cleaning up refuses |
| Framing.ValueOfBig | src/python/clipboard_framing_v2.py:32-34 | A number in big-endian bytes reads back |
| Framing.BigOfValue | src/python/clipboard_framing_v2.py:32-34 | Bytes read as a number write back |
| Framing.ByteOfBig | src/python/clipboard_framing_v2.py:32-34 | Byte i of a number in w bytes is the number divided by 256 to the power w-1-i, modulo 256: the highest byte comes first |
| Framing.HeaderBytes | src/python/clipboard_framing_v2.py:32-34 | Each byte of a payload header by its place: transfer, entry, offset, length, checksum kind |
| Framing.WireBytes | src/python/clipboard_framing_v2.py:124-170 | Each byte of a sent frame by its place: the length of what follows, the kind, the version, two zero bytes, then the text, or the header, the checksum and the payload |
| Framing.DecodeAfterEncode | src/python/clipboard_framing_v2.py:124-170 | Decoding an encoded frame returns its fields and leaves what follows untouched |
| Framing.EncodeAfterDecode | src/python/clipboard_framing_v2.py:203-259 | Whatever decodes to a frame is that frame's one encoding |
| Framing.ParseIsStable | src/python/clipboard_framing_v2.py:279-311 | More bytes never change a frame or an error the first bytes decided |
| Framing.FramesOfMore | src/python/clipboard_framing_v2.py:279-311 | The frames of a stream are those of its first part followed by those of what remains with the rest |
| Framing.FramesOfEncoded | src/python/clipboard_framing_v2.py:124-170 | Frames sent one after the other are the frames of the stream |
| Framing.TypedFrameReader.TryParse | src/python/clipboard_framing_v2.py:270-277 | A parse hands out the next frame, asks for more, or fails for good |
| Framing.TypedFrameReader.ReadFrame | src/python/clipboard_framing_v2.py:313-337 | Whatever arrives in whatever pieces, nothing is lost or handed out twice, an error is final, and the buffer stays below one frame plus one read; reading ends with the very arrival that completes a frame, makes the stream bad, or ends the time or the connection |
| Framing.EncodesExactly | src/python/clipboard_framing_v2.py:85-170 | What the encoders refuse: text that is no JSON or too long, and payloads of no transfer, out of range, too long, or with the wrong checksum |
| Framing.LengthRefused | src/python/clipboard_framing_v2.py:279-287 | A frame that announces more than any frame has, or less than its header, is refused as soon as its length is there |
| Framing.DeliveredExactly | src/python/clipboard_framing_v2.py:262-337 | A drained reader has handed out exactly the frames of its stream up to the first error |
| Framing.SegmentationIndependent | src/python/clipboard_framing_v2.py:262-337 | Two ways of cutting the same stream into reads and timeouts give the same frames and the same error |
| Framing.ReceivedAsSent | src/python/clipboard_framing_v2.py:313-337 | What was sent as frames is received as the same frames |
| Paths.CanonicalExactly | src/python/clipboard_paths.py:36-74 | A path is accepted exactly when, with its backslashes turned, no stretch between separators or ends is empty, a dot name, longer than 255 bytes, ends in a dot or space, or has a device for its stem, no character is a control, forbidden or a backslash, and the whole has at most 1024 bytes; it is accepted as just that |
| Paths.CutsAreEnds | src/python/clipboard_paths.py:87-91 | The prefixes the pass looks at end exactly where a part of the path ends |
| Paths.Utf8SizeIs | src/python/clipboard_paths.py:58-74 | The byte count of a text adds up, one to four bytes for a character by its number |
| Paths.CanonicalIsFixed | src/python/clipboard_paths.py:36-74 | A canonical path is its own canonical form |
| Paths.WindowsCollisionKey | src/python/clipboard_paths.py:27-33 | The key folds case character by character and never changes a length |
| Paths.EnterPrefixes | src/python/clipboard_paths.py:89-96 | The prefix dictionary finds a collision exactly when some earlier path spells a leading part differently |
| Paths.ValidatePathEntries | src/python/clipboard_paths.py:77-114 | The one pass with dictionaries accepts exactly the sets that satisfy the pairwise rule, and returns every path with its backslashes turned, each a plain path; a path refused on its own is none |
| Paths.OrderIndependent | src/python/clipboard_paths.py:77-114 | Acceptance does not depend on the order of the entries |
| Manifest.CheckLimits | src/python/clipboard_manifest_v2.py:251-265 | Caps are passed exactly when some running count or sum passes them |
| Manifest.CheckWire | src/python/clipboard_manifest_v2.py:222-265 | Entries are accepted exactly when they are in canonical wire form |
| Manifest.ValidateManifest | src/python/clipboard_manifest_v2.py:303-352 | Accepts exactly the manifests that are their own canonical form, and returns them unchanged |
| Manifest.AcceptedExactly | src/python/clipboard_manifest_v2.py:150-265 | A manifest is accepted exactly when it has a well-formed item, plain paths that go together in strict order numbered from zero, sizes, hashes and times as they may be, counts that are right and within the caps, and its own digest |
| Manifest.BuildManifest | src/python/clipboard_manifest_v2.py:268-300 | Building succeeds exactly for capturable entries within the limits, and its result is valid |
| Manifest.PreparedIsWire | src/python/clipboard_manifest_v2.py:222-265 | Sorted, numbered canonical entries are in wire form |
| Manifest.BuildIsOrderIndependent | src/python/clipboard_manifest_v2.py:268-300 | The order of the captured entries does not matter |
| Manifest.FinalizeManifest | src/python/clipboard_manifest_v2.py:108-146 | Finalizing succeeds exactly when the hashes cover the files and conflict with none, and its result is valid |
| Manifest.FinalizeOnce | src/python/clipboard_manifest_v2.py:124-146 | Replaying the same hashes changes nothing, any other hashes are refused, and the revision rises by one exactly when some file was unverified |
| Manifest.ContentIdentity | src/python/clipboard_manifest_v2.py:89-105 | An identity is given exactly to finalized valid manifests |
| Manifest.IdentityIsContent | src/python/clipboard_manifest_v2.py:89-105 | Two finalized manifests have one identity exactly when they list the same content under the same paths |
| Manifest.IdentityIgnoresCapture | src/python/clipboard_manifest_v2.py:89-146 | Two captures, built and finalized, have one identity exactly when they hold the same content under the same paths, whatever order, item, revision, times, fingerprints and earlier hash states |
| TransferQueue.AnyInterleaving | src/python/clipboard_transfer.py:855-1129 | Over any interleaving with one worker, whose looks at a status and writes of it are separate steps, no transfer waits twice, every live job is queued, active or waiting for its retry, no function runs more than max(1, max_retries) times, and before a shutdown no job is lost |
| TransferQueue.StepKeeps | src/python/clipboard_transfer.py:876-1129 | Every atomic stretch keeps the invariant behind that |
| TransferQueue.LostExactly | src/python/clipboard_transfer.py:1119-1125 | When nothing is abandoned a job is lost exactly when its turn ends alive after its retry was refused |
| TransferQueue.RetryRaceLoses | src/python/clipboard_transfer.py:1026-1032 | A concrete schedule in which a cancelling shutdown loses a job that was to be retried |
| TransferQueue.CancelledStays | src/python/clipboard_transfer.py:1098-1118 | Of a cancelled job the queue changes the status again exactly by one of the four writes the worker makes after a look it took before the cancel |
| TransferQueue.CancelIsOverwritten | src/python/clipboard_transfer.py:1098-1106 | A concrete schedule in which a cancel is reported as successful, the function runs all the same and the job ends completed |
| TransferQueue.TransferQueue.Submit | src/python/clipboard_transfer.py:876-908 | A job is taken exactly when the queue is open, has room and has none of that transfer |
| TransferQueue.TransferQueue.Cancel | src/python/clipboard_transfer.py:914-927 | Cancelling never loses a job |
| TransferQueue.TransferQueue.Begin | src/python/clipboard_transfer.py:1086-1097 | A dequeued job starts, as the one active job, exactly when it is known, not cancelled and the queue is not stopped |
| TransferQueue.TransferQueue.Peek | src/python/clipboard_transfer.py:1098-1099 | Whether a job is going to be marked running is settled by the status it has now, before anything is written |
| TransferQueue.TransferQueue.Call | src/python/clipboard_transfer.py:1098-1101 | The function runs within its bound |
| TransferQueue.TransferQueue.Returned | src/python/clipboard_transfer.py:1102-1104 | What the worker goes by is the status it sees when the function is back |
| TransferQueue.TransferQueue.SettleJob | src/python/clipboard_transfer.py:1103-1106 | A returned job that had not ended has, and one seen awaiting its acknowledgement has failed |
| TransferQueue.TransferQueue.Raised | src/python/clipboard_transfer.py:1107-1110 | A raised job is left alone exactly when it is seen cancelled on a running queue |
| TransferQueue.TransferQueue.MarkJob | src/python/clipboard_transfer.py:1108-1111 | It counts one more retry and has failed exactly when its retries are used up; if the queue was seen stopped it is cancelled |
| TransferQueue.TransferQueue.Resolve | src/python/clipboard_transfer.py:1112-1117 | A retry is scheduled exactly when the job may retry and the queue runs on; a job seen cancelled leaves |
| TransferQueue.TransferQueue.GiveUp | src/python/clipboard_transfer.py:1117-1118 | Any other job ends failed |
| TransferQueue.TransferQueue.Schedule | src/python/clipboard_transfer.py:1026-1031 | The retry becomes pending exactly when the queue accepts work and has none of that transfer pending; otherwise it is refused |
| TransferQueue.TransferQueue.Arm | src/python/clipboard_transfer.py:1063-1071 | The retry thread starts unless the queue stopped meanwhile; then the retry is refused |
| TransferQueue.TransferQueue.Conclude | src/python/clipboard_transfer.py:1119-1125 | A job that waits nowhere is forgotten, and before a shutdown none of those was alive |
| TransferQueue.TransferQueue.TryRequeue | src/python/clipboard_transfer.py:1033-1061 | A retry thread puts its job back once, only while it is pending, not at work and there is room, and gives up only when the queue stopped or it no longer is the one waited for |
| TransferQueue.TransferQueue.Close | src/python/clipboard_transfer.py:958-980 | Shutdown ends admission and gives up all retries; a cancelling one ends every job that waits and loses none |
| TransferQueue.TransferQueue.DrainOne | src/python/clipboard_transfer.py:982-1002 | Draining takes out the oldest waiting job, which is forgotten, and ended when pending jobs are cancelled |
| TransferQueue.TransferQueue.WakeWorker | src/python/clipboard_transfer.py:1004-1017 | A sentinel is put behind what waits exactly when the queue is stopped and has room |
| TransferQueue.TransferQueue.Take | src/python/clipboard_transfer.py:1074-1085 | An idle worker takes the oldest item and ends at a sentinel, or when nothing waits on a stopped queue |
| ChunkAssembly.PiecesTile | src/python/clipboard_model.py:1279-1296 | The pieces of a payload follow each other without gap or overlap, and as many as counted reach its end |
| ChunkAssembly.ChunkPlan | src/python/clipboard_model.py:1279-1290 | The plan's loop yields exactly those pieces |
| ChunkAssembly.ChunkAssembler.AddChunk | src/python/clipboard_protocol.py:594-605 | Stored, duplicate, mismatched or invalid, each exactly when its condition holds |
| ChunkAssembly.ChunkAssembler.NextIndex | src/python/clipboard_protocol.py:579-585 | The least missing index |
| ChunkAssembly.ChunkAssembler.Assemble | src/python/clipboard_protocol.py:614-623 | Succeeds exactly when nothing is missing and size and hash fit |
| ChunkAssembly.DiskChunkAssembler.AddChunk | src/python/clipboard_transfer.py:1175-1193 | The same in a file, where exactly the chunk's range changes |
| ChunkAssembly.DiskChunkAssembler.NextIndex | src/python/clipboard_transfer.py:1161-1166 | The least missing index |
| ChunkAssembly.DiskChunkAssembler.Finish | src/python/clipboard_transfer.py:1202-1222 | Succeeds exactly when nothing is missing and the hash fits |
| ChunkAssembly.Feed | src/python/clipboard_runtime.py:2471-2492 | Given the same chunk under the receiver's geometry check, both receivers answer alike and the file keeps every received chunk at its place |
| ChunkAssembly.FitsExactly | src/python/clipboard_runtime.py:2471-2476 | A chunk fits exactly when it is one of the pieces: at its index times the size, with the full size, or what is left for the last |
| ChunkAssembly.FeedAll | src/python/clipboard_runtime.py:2471-2492 | The same for any order of chunks with repetitions and rejected ones |
| ChunkAssembly.CompleteIsPayload | src/python/clipboard_protocol.py:611-623 | Once complete, file and joined chunks are equal, and with genuine chunks they are the payload |
| ChunkAssembly.Conclude | src/python/clipboard_transfer.py:1202-1222 | Both receivers finish alike, whatever passes the final hash is the payload, and with nothing missing or forged they do finish |
| Eviction.EvictionPlan | src/python/clipboard_model.py:993-1026 | First the count cap takes the fewest oldest unpinned items, then the size cap the fewest of what remains; with ids of their own this is the shortest run whose removal meets both caps, or all unpinned items when none does |
| Eviction.SharedIds | src/python/clipboard_model.py:1012-1024 | Two items with one id for which the plan is not that shortest run |
| Eviction.PlanSparesPinned | src/python/clipboard_model.py:993-1026 | An id is planned only with an unpinned item that has it, so pinned items with ids of their own never are |
| Eviction.OldestSorts | src/python/clipboard_model.py:1000-1005 | The items considered are all of them, oldest first |
| HashClosure.ExpandHashReferences | src/python/clipboard_store.py:365-381 | The loop ends with the least superset closed under sharing an item or cache entry |
| HashClosure.LeastIsUnique | src/python/clipboard_store.py:365-381 | The result does not depend on the order of items and entries |
| HashClosure.LeastIsReachable | src/python/clipboard_store.py:365-381 | A hash is in it exactly when a chain of overlapping groups leads to it |
| CfHtml.RoundTrip | src/python/clipboard_html.py:49-139 | Parsing a built payload that ends below 100,000,000 returns the marked-up HTML and exactly what stands between the markers |
| CfHtml.MarkedFragment | src/python/clipboard_html.py:29-90 | Text that has both markers is sent as it is, built exactly when they are in order, and what stands between them comes back |
| CfHtml.FieldIsANumber | src/python/clipboard_html.py:20-25 | A field is read exactly from a line that is its name, a colon, digits and white space |
| CfHtml.BareFragment | src/python/clipboard_html.py:29-90 | Text without a body or html element is wrapped whole, building succeeds, and the fragment that comes back is the text exactly when it did not hold the end marker itself |
| CfHtml.TaggedFragment | src/python/clipboard_html.py:35-90 | Unmarked text with a body (else html) element builds exactly when the first opening tag ends before the first closing tag begins, and the fragment is then exactly what stands between them |
| CfHtml.CloseAfterInsert | src/python/clipboard_html.py:35-44 | Putting the start marker behind the opening tag leaves the same closing tag the first one |
| CfHtml.BoundIsSharp | src/python/clipboard_html.py:83-90 | From 100,000,000 on, what is parsed is never the HTML that was built, for any URL up to a trillion bytes and for a URL without an angle bracket beyond |
| CfHtml.PaddedIsEight | src/python/clipboard_html.py:83-89 | A field is eight digits wide exactly below 100,000,000 |
| CfHtml.HeaderSize | src/python/clipboard_html.py:57-73 | A source URL adds its own line to the header, ten characters of name, the URL and a line end, and no URL adds nothing |
| CfHtml.HeaderFields | src/python/clipboard_html.py:99-111 | Every field of the header reads back its number, whatever follows |
| CfHtml.MarkersApart | src/python/clipboard_html.py:76-81 | The two markers of a built payload do not overlap |

## Left out

- Text encodings: JSON, canonical JSON, UUID parsing, base64 and UTF-8 are the values they encode; the digests a journal keeps of itself and of its entry set say nothing more in the model.
- UTF-8 byte order of paths is taken as code point order, which it equals; unpaired surrogates do not occur in the model's strings.
- SHA-256 is an arbitrary function; where collisions would matter their absence is a hypothesis, for manifests too: a digest names one manifest.
- File identity: a fingerprint of a staged file is its inode; change times, reparse points, sharing modes, fsync and the re-hash of a freshly linked file on POSIX are not modelled, nor is the cache of verified files.
- A read of an intact object that fails makes publication replace it; the branch is left out because with intact files it never runs, and `ObjectFiles.UnlinkObject` says when it would be safe.
- I/O errors inside publication, release, discard and collection: each leaves a state a crash would leave, and those are covered.
- ObjectStore.ObjectStore.CollectGarbage: refusing to collect with an unknown index or a foreign file in a shard is not modelled, because the model's store holds neither.
- ClipboardStore.ClipboardStore.CommitReceived: integrity tombstones, cache accounting, current item, providers and the retained sessions are not part of a row; the eviction policy is an arbitrary function of the rows.
- ClipboardStore.ClipboardStore.Evict: two stores of one profile are told apart by the index digest; the model has one store per profile.
- Legacy objects, their cleanup and the corrupt-index recovery are not modelled; they name no V2 object.
- IncomingStage.IncomingTransferStage.Restore: takes the stages whose checks succeed, which `Reopening.ReopenFault` lists; foreign names in a stage directory are not modelled.
- IncomingStage.IncomingTransferStage.PurgeOrRelease: the object store argument of a purge is not modelled; `ObjectStore.ObjectStore.DiscardPending` is the step it takes.
- IncomingStage.IncomingTransferStage.Pause: what a stage still does after a pause that was stored but reported as failed is not modelled, beyond that it can store nothing and that its disk can be reopened (`StageRuns.OutdatedReopens`).
- IncomingStage.IncomingTransferStage.TerminalFailure: within one call a full disk is the reason of every failure or of none.
- Stages without a journal, rate estimates, status reports, the startup inventory and quarantine would only add easy members.
- SenderStream.SequentialFileStream.IterChunks: the sources do not change while they are read, so checking them all once more at the end is not repeated; the cancellation callback and I/O exceptions of a source are not modelled.
- Counters of waiters, the registration of queues with the coordinator and the texts of errors are left out.
- FlowChannels.DrainedWindowAdmits: needs acknowledgement batches that fit the window, in chunks and in bytes, which the limits do not enforce.
- TransferQueue.AnyInterleaving: for one worker. With several, a second cancel between a skipped start and its cleanup lets a re-submitted id lose its active mark. Jobs and functions are named by numbers, retry timers may fire although cancelled, and blocking submission is repeated attempts.
- Framing.TypedFrameReader.ReadFrame: a control frame carries its JSON text; the bounds on depth, nodes and integers belong to the JSON check, which is a parameter.
- Paths.ValidatePathEntries: which of several faults is reported depends on the order of entries and is not compared; case mappings are parameters that keep separators apart.
- Manifest.IdentityIgnoresCapture: assumes that the identity hash has no collisions.
- CfHtml.TaggedFragment: the case of a text that holds one marker but not the other and has tags as well is not stated.
- CfHtml.RoundTrip: the source URL found by the parser is not modelled, nor is the rewriting of a source URL that itself contains a zeroed field; characters and their UTF-8 bytes are one string, so white space of several bytes inside a closing tag is outside the model.
- CfHtml.BoundIsSharp: beyond a trillion bytes it asks for a URL without an angle bracket.
- Eviction.EvictionPlan: the shortest run is proved for lists in which no two items share an id, which is what the history holds; what happens otherwise is stated stage by stage.
- Message routing, threads, logging, configuration, materialisation, previews and the user interface are not part of this model.
