/** The receiver of one transfer: files are written one after the other into a private stage, and a
    journal beside it says at all times how much of them is durable. */
module IncomingStage {
  import opened Common
  import opened Staging
  import opened StageState
  import J = ResumeJournal
  import T = TransferControl

  const MAX_BINARY_PAYLOAD_BYTES: nat := 4 * 1024 * 1024

  /** A wall clock reading in nanoseconds; it stays in range until the year 2554. */
  type Nanos = x: int | 0 <= x <= UINT64_MAX

  datatype StageError =
    | InvalidChunk | SizeMismatch | ShortWrite | TargetWriteFailed | TargetFlushFailed | JournalCommitFailed
    | SourceChanged | HashMismatch | FinalizeRenameFailed | PublicationIncomplete | DiskFull | JournalPurgeFailed | CorruptPartial
    | ReconnectExpired | FinalAckExpired

  /** How a call ends: normally, with a stream error, or with a journal error that escapes it. */
  datatype Reply = Fine | StreamError(code: StageError) | JournalError(cause: J.Code)

  datatype WriteExtent = WroteAll | WroteShort(n: nat) | WriteBroke(n: nat)

  /** How the operating system answers during one call; `full` is why whatever fails fails. */
  datatype Io = Io(opens: bool, writes: WriteExtent, flushes: bool, commits: WriteResult, renames: bool, full: bool, nowNs: Nanos, clock: real)

  /** A full disk is told apart from every other failure of the operating system. */
  function IoCode(io: Io, code: StageError): StageError {
    if io.full then DiskFull else code
  }

  predicate Perfect(io: Io) {
    io.opens && io.writes == WroteAll && io.flushes && io.commits == Written && io.renames
  }

  datatype PayloadChunk = PayloadChunk(transfer: TransferId, entry: nat, offset: nat, payload: Content, checksum: Digest)

  datatype VerifiedWrite = VerifiedWrite(entry: nat, offset: nat, length: nat, fileComplete: bool, durable: int, checkpointed: bool)

  /** The sender's evidence that it has streamed everything. */
  datatype Completion = Completion(transfer: TransferId, manifest: Digest, total: int,
                                   hashes: map<int, Digest>, fingerprints: map<int, nat>)

  predicate ChunkOk(sha: Content -> Digest, c: PayloadChunk) {
    0 < |c.payload| <= MAX_BINARY_PAYLOAD_BYTES && c.checksum == sha(c.payload)
  }

  lemma KeysAre<V>(m: map<int, V>, s: set<int>)
    ensures m.Keys == s <==> forall k :: k in m <==> k in s
  {
    if forall k :: k in m <==> k in s {
      assert forall k :: k in m.Keys <==> k in s;
    }
  }

  class IncomingTransferStage {
    const sha: Content -> Digest
    const manifest: J.Manifest
    const transfer: TransferId
    const binding: J.Binding
    const byteInterval: nat
    const timeInterval: real
    const timeouts: T.Timeouts

    var disk: Disk
    var journal: Option<J.Journal>
    var phase: Phase
    var nextEntry: nat
    var file: Option<nat>
    var offset: nat
    var hashed: Content
    var hashes: map<int, Digest>
    var bytesDone: int
    var resumeBytes: int
    var lastCheckpoint: Option<real>
    var failure: Option<StageError>
    var sealed: bool
    var tracker: T.Tracker
    /** Every persistent state the stage went through, the present one last. */
    ghost var points: seq<Disk>
    /** How many of them there were before a purge that had failed went on to remove the stage. */
    ghost var kept: nat

    function Abs(): Stage
      reads this
    {
      Stage(disk, journal, phase, nextEntry, file, offset, hashed, hashes, bytesDone)
    }

    /** Every point a crash could have struck at leaves a stage that is over or can be reopened, up to a
        removal that no purge allowed. */
    ghost predicate Past()
      reads this`disk, this`points, this`kept
    {
      && points != [] && points[|points| - 1] == disk && kept <= |points|
      && (forall i :: 0 <= i < kept ==> Sound(sha, manifest.entries, points[i]))
      && (forall i :: kept <= i < |points| ==> Leftover(sha, manifest.entries, points[i]) || Ended(points[i]))
      && Mine(disk) && Chained(points) && Stepwise(points)
    }

    /** The stored journal is the one of this transfer. */
    predicate Mine(d: Disk) {
      d.journal.Some? ==> d.journal.value.transfer == transfer && d.journal.value.binding == binding
    }

    /** Only a purged stage with an error on record can have been removed that way. */
    ghost predicate Entire()
      reads this`points, this`kept, this`journal, this`phase, this`failure
    {
      kept <= |points| && (kept < |points| ==> journal.None? && phase == Purged && failure.Some?)
    }

    /** The running wait is the one of the present phase, and nothing is sealed while receiving. */
    ghost predicate Timed()
      reads this`phase, this`tracker, this`sealed
    {
      Aligned(tracker.phase, phase) && T.Sane(tracker) && (phase == Receiving ==> !sealed)
    }

    ghost predicate History()
      reads this`disk, this`points, this`kept, this`journal, this`phase, this`failure, this`tracker, this`sealed
    {
      Past() && Timed() && Entire()
    }

    ghost predicate Valid()
      reads this
    {
      History() && StageInv(sha, manifest.entries, Abs())
    }

    lemma StaysMine(d: Disk, next: Disk)
      requires Mine(d) && JournalStep(d.journal, next.journal)
      ensures Mine(next)
    {
    }

    /** The way anything persistent changes while the stage is in use. */
    method Persist(next: Disk)
      requires History() && journal.Some? && Sound(sha, manifest.entries, next)
      requires JournalStep(disk.journal, next.journal) && Atomic(disk, next)
      modifies this`disk, this`points, this`kept
      ensures History() && disk == next && points == old(points) + [next]
    {
      hide Sound, Timed, Atomic, JournalStep, Chained, Stepwise, Mine;
      StaysMine(disk, next);
      PointsGrow(points, next);
      disk := next;
      points := points + [next];
      kept := kept + 1;
    }

    /** Removes the stage directory, one file after the other. `over` says that the journal allows it. */
    method RemoveTree(ghost over: bool)
      requires Past() && (over ==> Ended(disk) && kept == |points|)
      requires Leftover(sha, manifest.entries, disk) || Ended(disk)
      modifies this`disk, this`points, this`kept
      ensures Past() && disk == Disk(false, map[], map[], old(disk).journal)
      ensures Leftover(sha, manifest.entries, disk) || Ended(disk)
      ensures if over then kept == |points| else kept == old(kept) && |old(points)| < |points|
      ensures old(points) <= points && forall i :: |old(points)| <= i < |points| ==> Removing(old(disk), points[i])
    {
      hide Leftover, Sound, Past, Ended, FileCount, Atomic;
      ghost var from := disk;
      while disk.parts != map[] || disk.verified != map[]
        invariant Past() && (if over then kept == |points| else kept == old(kept))
        invariant Removing(from, disk) && old(points) <= points
        invariant forall i :: |old(points)| <= i < |points| ==> Removing(from, points[i])
        decreases FileCount(disk)
      {
        if disk.parts != map[] {
          var i :| i in disk.parts;
          NoPart(from, disk, i);
          AtomicRemoval(disk, i);
          Remove(over, disk.(parts := disk.parts - {i}), from);
        } else {
          var i :| i in disk.verified;
          NoVerified(from, disk, i);
          AtomicRemoval(disk, i);
          Remove(over, disk.(verified := disk.verified - {i}), from);
        }
      }
      assert Removing(from, Disk(false, map[], map[], disk.journal));
      AtomicDirectory(disk, false);
      Remove(over, Disk(false, map[], map[], disk.journal), from);
      RemovedLeft(from, disk);
    }

    function FileCount(d: Disk): nat {
      |d.parts.Keys| + |d.verified.Keys|
    }

    lemma NoPart(from: Disk, d: Disk, i: nat)
      requires Removing(from, d) && i in d.parts
      ensures var e := d.(parts := d.parts - {i}); Removing(from, e) && FileCount(e) < FileCount(d)
    {
      assert (d.parts - {i}).Keys == d.parts.Keys - {i};
    }

    lemma NoVerified(from: Disk, d: Disk, i: nat)
      requires Removing(from, d) && i in d.verified
      ensures var e := d.(verified := d.verified - {i}); Removing(from, e) && FileCount(e) < FileCount(d)
    {
      assert (d.verified - {i}).Keys == d.verified.Keys - {i};
    }

    /** One step of a removal. */
    method Remove(ghost over: bool, next: Disk, ghost from: Disk)
      requires Past() && (over ==> Ended(from) && kept == |points|) && Removing(from, next) && from.journal == disk.journal && Atomic(disk, next)
      requires Leftover(sha, manifest.entries, from) || Ended(from)
      modifies this`disk, this`points, this`kept
      ensures Past() && disk == next && points == old(points) + [next]
      ensures if over then kept == |points| else kept == old(kept)
    {
      RemovedLeft(from, next);
      PointsGrow(points, next);
      hide Leftover, Recoverable, Removing, Atomic, Chained, Stepwise, Ended;
      disk := next;
      points := points + [next];
      if over {
        kept := kept + 1;
      }
    }

    lemma RemovedLeft(from: Disk, next: Disk)
      requires Removing(from, next)
      ensures next.journal == from.journal && (Ended(next) <==> Ended(from))
      ensures Leftover(sha, manifest.entries, from) ==> Leftover(sha, manifest.entries, next)
    {
      if Leftover(sha, manifest.entries, from) {
        RemovingKeeps(sha, manifest.entries, from, next);
      }
    }

    /** Commits a journal generation built on the one in memory. It fails when the stored journal has
        moved on, when the transition is not allowed, or when the write fails; a failed write may
        still have stored it. */
    method CommitJournal(next: J.Journal, io: Io) returns (ok: bool, code: StageError)
      requires History() && journal.Some?
      requires disk.journal == journal && J.TransitionFault(journal.value, next).None? ==> Sound(sha, manifest.entries, WithJournal(disk, next))
      requires Owned(Abs()) && next.generation == journal.value.generation + 1
      modifies this`disk, this`journal, this`points, this`kept
      ensures History() && Owned(Abs())
      ensures ok ==>
        && old(disk.journal) == old(journal) && J.TransitionFault(old(journal).value, next).None?
        && disk == WithJournal(old(disk), next) && journal == Some(next)
      ensures !ok ==> journal == old(journal) && (disk != old(disk) ==> io.commits == FailedAfter)
      ensures disk == old(disk)
           || (disk == WithJournal(old(disk), next) && old(disk.journal) == old(journal) && J.TransitionFault(old(journal).value, next).None?)
      ensures io.commits == Written && old(disk.journal) == old(journal) ==>
        (ok <==> J.TransitionFault(old(journal).value, next).None?) && (!ok ==> disk == old(disk))
      ensures ok ==> io.commits == Written
      ensures code in {JournalCommitFailed, DiskFull} && (code == DiskFull ==> io.full && io.commits != Written)
      ensures old(disk.journal) == old(journal) && J.TransitionFault(old(journal).value, next).None? && !ok ==>
        code == IoCode(io, JournalCommitFailed)
      ensures points == if disk == old(disk) then old(points) else old(points) + [disk]
    {
      hide Sound, Atomic;
      code := JournalCommitFailed;
      if disk.journal.None? || disk.journal.value.generation != journal.value.generation {
        return false, code;
      }
      var fault := J.ValidateTransition(disk.journal.value, next);
      if fault.Some? {
        return false, code;
      }
      if io.commits != Written {
        code := IoCode(io, JournalCommitFailed);
      }
      if io.commits == FailedBefore {
        return false, code;
      }
      AtomicJournal(disk, Some(next));
      Persist(WithJournal(disk, next));
      if io.commits == FailedAfter {
        return false, code;
      }
      journal := Some(next);
      return true, code;
    }

    // -------------------------------------------------------------- failing

    method CloseFile()
      modifies this`file, this`hashed
      ensures file.None? && hashed == []
    {
      file, hashed := None, [];
    }

    /** Leaves the receiving phase: the open file is closed and the wait of the new phase begins. */
    method EnterPhase(next: Phase, wait: T.Phase, clock: real)
      requires Past() && Rest(sha, manifest.entries, Abs()) && next != Receiving && Aligned(wait, next)
      requires Entire() || (journal.None? && next == Purged && failure.Some?)
      requires phase == Purged ==> next == Purged
      modifies this`phase, this`tracker, this`file, this`hashed
      ensures Valid() && History() && phase == next && file.None? && hashed == [] && tracker == T.Entered(timeouts, wait, clock)
      ensures Rest(sha, manifest.entries, Abs())
    {
      hide Rest, StageInv, Sound, Leftover;
      ghost var s := Abs();
      CloseFile();
      phase, tracker := next, T.Entered(timeouts, wait, clock);
      PhaseRest(sha, manifest.entries, s, Abs());
    }

    /** One more journal generation with another state. */
    method SetJournalState(state: J.State, io: Io) returns (r: Reply)
      requires History() && Rest(sha, manifest.entries, Abs())
      requires journal.Some? && state in {J.Verifying, J.Finalizing} ==> AllComplete(journal.value.entries)
      requires journal.Some? && state == J.Completed ==>
        forall i :: 0 <= i < |journal.value.entries| ==> J.Published(journal.value.entries[i])
      modifies this`disk, this`journal, this`points, this`kept
      ensures History() && Rest(sha, manifest.entries, Abs())
      ensures disk.parts == old(disk.parts) && disk.verified == old(disk.verified) && disk.present == old(disk.present)
      ensures journal.Some? <==> old(journal).Some?
      ensures old(journal).None? ==> r == Fine && disk == old(disk) && journal.None?
      ensures old(journal).Some? && r == Fine ==>
        && NextState(sha, old(journal).value, state, io.nowNs).Ok?
        && journal == Some(NextState(sha, old(journal).value, state, io.nowNs).value) && disk == WithJournal(old(disk), journal.value)
      ensures old(journal).Some? && r == Fine ==>
        && disk.journal == journal && journal.value.state == state && journal.value.entries == old(journal).value.entries
      ensures r != Fine ==> journal == old(journal) && (disk != old(disk) ==> io.commits == FailedAfter)
      ensures r.StreamError? ==> r.code in {JournalCommitFailed, DiskFull}
      ensures io.commits == FailedBefore && old(journal).Some? ==> r != Fine && disk == old(disk)
      ensures old(journal).Some? && r == Fine ==>
        && io.commits == Written && old(disk.journal) == old(journal)
        && J.TransitionFault(old(journal).value, NextState(sha, old(journal).value, state, io.nowNs).value).None?
      ensures old(journal).Some? && NextState(sha, old(journal).value, state, io.nowNs).Err? ==> r.JournalError? && disk == old(disk)
      ensures old(journal).Some? && NextState(sha, old(journal).value, state, io.nowNs).Ok? ==> !r.JournalError?
      ensures old(journal).Some? && old(disk.journal) == old(journal) && io.commits == Written && !r.JournalError? ==>
        (r == Fine <==> J.TransitionFault(old(journal).value, NextState(sha, old(journal).value, state, io.nowNs).value).None?)
      ensures points == if disk == old(disk) then old(points) else old(points) + [disk]
      ensures disk == old(disk)
           || (old(journal).Some? && NextState(sha, old(journal).value, state, io.nowNs).Ok?
               && disk == WithJournal(old(disk), NextState(sha, old(journal).value, state, io.nowNs).value))
    {
      if journal.None? {
        return Fine;
      }
      StateChangeSound(sha, manifest.entries, Abs(), state, io.nowNs);
      var next := NextState(sha, journal.value, state, io.nowNs);
      hide Sound, Recoverable, NextState, J.TransitionFault;
      if next.Err? {
        return JournalError(next.error);
      }
      var ok, code := CommitJournal(next.value, io);
      assert Sound(sha, manifest.entries, points[|points| - 1]);
      return if ok then Fine else StreamError(code);
    }

    /** The stage gives up but keeps its parts and its last checkpoint; the journal becomes `failed`
        when that is possible. */
    method TerminalFailure(code: StageError, io: Io) returns (r: Reply)
      requires History() && Rest(sha, manifest.entries, Abs()) && phase != Purged
      modifies this`phase, this`failure, this`tracker, this`file, this`hashed, this`disk, this`journal, this`points, this`kept
      ensures Valid() && History() && phase == Failed && failure == Some(code) && tracker == T.Entered(timeouts, T.Failed, io.clock)
      ensures r == StreamError(code) || (r.JournalError? && code != JournalCommitFailed)
      ensures r.JournalError? ==> old(journal).Some? && NextState(sha, old(journal).value, J.Failed, io.nowNs).Err?
      ensures (code != JournalCommitFailed && io.commits == Written && r.StreamError?
               && old(journal.Some? && disk.journal == journal && !(journal.value.state in {J.Completed, J.Cancelled, J.Purging}))) ==>
        && disk.journal == journal && journal.Some? && journal.value.state == J.Failed && journal.value.entries == old(journal).value.entries
      ensures file.None? && (journal.Some? <==> old(journal).Some?)
      ensures disk.parts == old(disk.parts) && disk.verified == old(disk.verified)
    {
      hide Sound, Recoverable, NextState, J.TransitionFault, Past, Core, Ended, Leftover;
      phase, failure := Failed, Some(code);
      tracker := T.Entered(timeouts, T.Failed, io.clock);
      CloseFile();
      r := StreamError(code);
      if code != JournalCommitFailed {
        StopAllowed(sha, manifest.entries, Abs(), J.Failed, io.nowNs);
        var stored := SetJournalState(J.Failed, io);
        if stored.JournalError? {
          r := stored;
        }
      }
    }

    // -------------------------------------------------------------- one file

    method OpenFile(io: Io) returns (r: Reply)
      requires History() && Core(sha, manifest.entries, Abs()) && phase == Receiving && file.None? && IsFile(manifest.entries, nextEntry)
      modifies this
      ensures bytesDone == old(bytesDone)
      ensures r.Fine? ==> History() && Abs() == Opened(old(Abs())) && Core(sha, manifest.entries, Abs()) && (old(Counted(Abs())) ==> Counted(Abs()))
      ensures History() && (r.Fine? ==> tracker == old(tracker))
      ensures !r.Fine? ==> Valid() && phase == Failed && !io.opens && failure == Some(if io.full then DiskFull else TargetWriteFailed)
      ensures r.Fine? <==> io.opens
      ensures r.Fine? ==> lastCheckpoint == Some(io.clock)
    {
      hide Core, Rest, Counted, Sound, Owned, StageInv, Valid, Past, Leftover, Ended, Recoverable, T.Sane, Opened;
      CoreFacts(sha, manifest.entries, Abs());
      if !io.opens {
        r := TerminalFailure(IoCode(io, TargetWriteFailed), io);
        return;
      }
      CreatePart(io.clock);
      return Fine;
    }

    /** The part of the awaited file is there, empty and open. */
    method CreatePart(clock: real)
      requires History() && Core(sha, manifest.entries, Abs()) && phase == Receiving && file.None? && IsFile(manifest.entries, nextEntry)
      modifies this`disk, this`points, this`kept, this`file, this`offset, this`hashed, this`lastCheckpoint
      ensures lastCheckpoint == Some(clock)
      ensures History() && Abs() == Opened(old(Abs())) && Core(sha, manifest.entries, Abs()) && (old(Counted(Abs())) ==> Counted(Abs()))
    {
      hide Core, Rest, Counted, Sound, Owned, StageInv, Valid, Leftover, Ended, Recoverable, T.Sane, Atomic;
      CoreFacts(sha, manifest.entries, Abs());
      OpenedCore(sha, manifest.entries, Abs());
      CoreIsRest(sha, manifest.entries, Opened(Abs()));
      RestSound(sha, manifest.entries, Opened(Abs()));
      AtomicPart(disk, nextEntry, []);
      Persist(disk.(parts := disk.parts[nextEntry := []]));
      file, offset, hashed := Some(nextEntry), 0, [];
      lastCheckpoint := Some(clock);
    }

    /** Makes the bytes of the open file durable and commits a journal generation that says so. */
    method Record(completed: bool, io: Io) returns (r: Reply)
      requires History() && Core(sha, manifest.entries, Abs()) && phase == Receiving && file.Some?
      requires nextEntry < |manifest.entries| && journal.Some? && |journal.value.entries| == |manifest.entries|
      requires if completed then offset == manifest.entries[nextEntry].size else Waiting(sha, manifest.entries, Abs())
      modifies this
      ensures bytesDone == old(bytesDone)
      ensures r.Fine? ==>
        && History() && old(CanUpdate(sha, Abs(), completed))
        && Update(sha, old(Abs()), completed, io.nowNs).Ok?
        && Abs() == Stored(old(Abs()), Update(sha, old(Abs()), completed, io.nowNs).value) && tracker == old(tracker)
      ensures History()
      ensures !io.flushes ==> failure == Some(if io.full then DiskFull else TargetFlushFailed)
      ensures r.JournalError? && phase == Receiving ==> Abs() == old(Abs()) && !old(CanUpdate(sha, Abs(), completed)) && tracker == old(tracker)
      ensures r.StreamError? || phase != Receiving ==> Valid() && phase == Failed
      ensures journal.Some?
      ensures disk.parts == old(disk.parts) && disk.verified == old(disk.verified)
      ensures io.flushes ==> (r.JournalError? ==> phase == Receiving)
      ensures io.flushes && !old(CanUpdate(sha, Abs(), completed)) ==> r.JournalError?
      ensures Perfect(io) && old(CanUpdate(sha, Abs(), completed)) ==> r.Fine?
      ensures phase == Receiving ==> Onward(old(journal), journal)
    {
      hide Core, Waiting, Update, Rest, Sound, CanUpdate, J.TransitionFault, StageInv, Valid, Leftover, Ended, T.Sane, Past;
      CoreFacts(sha, manifest.entries, Abs());
      UpdateDecides(sha, manifest.entries, Abs(), completed, io.nowNs);
      RestSound(sha, manifest.entries, Abs());
      if !io.flushes {
        r := TerminalFailure(IoCode(io, TargetFlushFailed), io);
        return;
      }
      assert |disk.parts[nextEntry]| == offset;
      var next := Update(sha, Abs(), completed, io.nowNs);
      if next.Err? {
        return JournalError(next.error);
      }
      r := StoreProgress(next.value, io);
    }

    /** The generation that records progress of the open file; a failed write fails the stage. */
    method StoreProgress(next: J.Journal, io: Io) returns (r: Reply)
      requires History() && Core(sha, manifest.entries, Abs()) && phase == Receiving && journal.Some?
      requires J.TransitionFault(journal.value, next).None? && Recoverable(sha, manifest.entries, WithJournal(disk, next))
      requires next.generation == journal.value.generation + 1 && next.state == J.Transferring && journal.value.generation < UINT64_MAX
      modifies this`phase, this`failure, this`tracker, this`file, this`hashed, this`disk, this`journal, this`points, this`kept
      ensures History() && journal.Some? && (r.Fine? || r.StreamError?)
      ensures r.Fine? ==> Abs() == Stored(old(Abs()), next) && tracker == old(tracker)
      ensures disk.parts == old(disk.parts) && disk.verified == old(disk.verified)
      ensures !r.Fine? ==> Valid() && phase == Failed
      ensures Perfect(io) ==> r.Fine?
    {
      hide Core, Waiting, Rest, Recoverable, J.TransitionFault, StageInv, Leftover, Ended, T.Sane;
      ghost var s := Abs();
      CoreFacts(sha, manifest.entries, s);
      RestSound(sha, manifest.entries, s);
      MayFail(sha, manifest.entries, s, io.nowNs);
      var ok, code := CommitJournal(next, io);
      if ok {
        return Fine;
      }
      assert Sound(sha, manifest.entries, points[|points| - 1]);
      RestAfter(sha, manifest.entries, Abs());
      r := TerminalFailure(code, io);
    }

    /** The open file is through: its completion is durable, it is closed and passed. */
    method CompleteFile(io: Io) returns (r: Reply)
      requires History() && Core(sha, manifest.entries, Abs()) && phase == Receiving && file.Some?
      requires nextEntry < |manifest.entries| && journal.Some? && |journal.value.entries| == |manifest.entries|
      requires offset == manifest.entries[nextEntry].size
      modifies this
      ensures bytesDone == old(bytesDone)
      ensures r.Fine? ==> History() && FileClosed(sha, manifest.entries, old(Abs()), Abs(), io.nowNs) && tracker == old(tracker)
      ensures History()
      ensures r.JournalError? && phase == Receiving ==> Abs() == old(Abs()) && !old(CanUpdate(sha, Abs(), true)) && tracker == old(tracker)
      ensures r.StreamError? || phase != Receiving ==> Valid() && phase == Failed
      ensures journal.Some?
      ensures io.flushes ==> (r.JournalError? ==> phase == Receiving)
      ensures io.flushes && !old(CanUpdate(sha, Abs(), true)) ==> r.JournalError?
      ensures Perfect(io) && old(CanUpdate(sha, Abs(), true)) ==> r.Fine?
      ensures phase == Receiving ==> Onward(old(journal), journal)
    {
      hide Core, Rest, Sound, StageInv, CanUpdate, Waiting, Update, FileClosed, Past, Valid, Recoverable, Leftover;
      ghost var s := Abs();
      r := Record(true, io);
      if r.Fine? {
        ClosedFile(sha, manifest.entries, s, io.nowNs);
        hashes := hashes[nextEntry := sha(hashed)];
        CloseFile();
        nextEntry, offset := nextEntry + 1, 0;
      }
    }

    /** Directories and empty files need no payload: they are passed, and completed, at once. */
    method AdvanceNonPayloadEntries(io: Io) returns (r: Reply)
      requires History() && Core(sha, manifest.entries, Abs()) && phase == Receiving && file.None? && journal.Some? && Counted(Abs())
      modifies this
      ensures bytesDone == old(bytesDone)
      ensures Valid() && (r.Fine? ==> phase == Receiving && tracker == old(tracker))
      ensures r.Fine? ==> file.None? && nextEntry == NextPayload(manifest.entries, old(nextEntry))
      ensures phase == Receiving ==>
        && SameHeld(old(Abs()), Abs())
        && journal.Some? && journal.value.generation <= old(journal).value.generation + nextEntry - old(nextEntry)
      ensures r.Fine? ==> bytesDone == old(bytesDone) && nextEntry >= old(nextEntry)
      ensures r.StreamError? ==> phase == Failed
      ensures Perfect(io) && !r.Fine? ==> r.JournalError? && phase == Receiving && Stuck(sha, Abs())
      ensures phase == Receiving ==> Onward(old(journal), journal)
    {
      hide Core, Rest, Sound, StageInv, CanUpdate, Update, FileClosed, Counted, SameHeld, Live, Waiting, Stuck, Opened, NextPayload;
      ghost var s := Abs();
      r := Fine;
      HeldSelf(s);
      while nextEntry < |manifest.entries|
        invariant History() && Core(sha, manifest.entries, Abs()) && phase == Receiving && file.None?
        invariant journal.Some? && Counted(Abs()) && tracker == old(tracker) && SameHeld(s, Abs())
        invariant s.next <= nextEntry && NextPayload(manifest.entries, nextEntry) == NextPayload(manifest.entries, s.next)
        invariant journal.value.generation <= s.journal.value.generation + nextEntry - s.next && bytesDone == s.bytesDone
        invariant Onward(s.journal, journal)
        invariant r.Fine?
        decreases |manifest.entries| - nextEntry
      {
        ghost var here := Abs();
        CoreFacts(sha, manifest.entries, here);
        NextPayloadStep(manifest.entries, nextEntry);
        if manifest.entries[nextEntry].kind == J.Directory {
          PassedCore(sha, manifest.entries, here);
          HeldSelf(here);
          nextEntry := nextEntry + 1;
          HeldTrans(s, here, Abs());
        } else if manifest.entries[nextEntry].size != 0 {
          break;
        } else {
          r := CompleteEmpty(io);
          if phase == Receiving {
            HeldTrans(s, here, Abs());
          }
          if !r.Fine? {
            return;
          }
        }
      }
      CoreFacts(sha, manifest.entries, Abs());
      NextPayloadStep(manifest.entries, nextEntry);
      SettledInv(sha, manifest.entries, Abs());
    }

    /** An empty file is created, completed and passed. */
    method CompleteEmpty(io: Io) returns (r: Reply)
      requires History() && Core(sha, manifest.entries, Abs()) && phase == Receiving && file.None? && journal.Some? && Counted(Abs())
      requires IsFile(manifest.entries, nextEntry) && manifest.entries[nextEntry].size == 0
      modifies this
      ensures bytesDone == old(bytesDone)
      ensures r.Fine? ==>
        && History() && Core(sha, manifest.entries, Abs()) && phase == Receiving && file.None? && tracker == old(tracker)
        && journal.Some? && Counted(Abs()) && nextEntry == old(nextEntry) + 1
        && journal.value.generation == old(journal).value.generation + 1 && bytesDone == old(bytesDone)
      ensures phase == Receiving ==> SameHeld(old(Abs()), Abs())
      ensures phase == Receiving && !r.Fine? ==> nextEntry == old(nextEntry) && journal == old(journal)
      ensures !r.Fine? ==> Valid() && (r.StreamError? ==> phase == Failed)
      ensures Perfect(io) && !r.Fine? ==> r.JournalError? && phase == Receiving && Stuck(sha, Abs())
      ensures phase == Receiving ==> Onward(old(journal), journal)
    {
      hide Core, Rest, Sound, StageInv, CanUpdate, Update, FileClosed, Counted, SameHeld, Live, Waiting, Stuck;
      ghost var s := Abs();
      OpenedHeld(sha, manifest.entries, s);
      r := OpenFile(io);
      if !r.Fine? {
        return;
      }
      ghost var begun := Abs();
      CoreFacts(sha, manifest.entries, begun);
      r := CompleteFile(io);
      if r.Fine? {
        FileClosedFacts(sha, manifest.entries, begun, Abs(), io.nowNs);
        HeldTrans(s, begun, Abs());
      } else if phase == Receiving {
        assert begun == Opened(s);
        SettledInv(sha, manifest.entries, Abs());
        StuckWhenNotRecordable(sha, manifest.entries, Abs());
      }
    }

    // -------------------------------------------------------------- checkpoints

    /** A checkpoint of the open file, when it is forced or due: one interval of bytes or of time has
        passed since the last one. Nothing is recorded without an open file; with nothing written to it
        the journal update itself fails and escapes as such. */
    method Checkpoint(now: Option<real>, force: bool, io: Io) returns (done: bool, r: Reply)
      requires Valid() && phase == Receiving
      modifies this
      ensures bytesDone == old(bytesDone)
      ensures Valid() && (r.StreamError? ==> phase == Failed) && (done ==> r.Fine?) && phase in {Receiving, Failed}
      ensures r.Fine? ==>
        && phase == Receiving && SameHeld(old(Abs()), Abs()) && tracker == old(tracker)
        && (nextEntry, file, offset, hashed, bytesDone) == old((nextEntry, file, offset, hashed, bytesDone))
      ensures done ==>
        && journal.Some? && file.Some? && nextEntry < |journal.value.entries| && journal.value.entries[nextEntry].p.durable == offset
        && old(journal).Some? && journal.value.generation == old(journal).value.generation + 1
      ensures r.Fine? && !done ==> Abs() == old(Abs()) && lastCheckpoint == old(lastCheckpoint)
      ensures journal.Some?
      ensures r.Fine? && !done && file.Some? ==>
        && !force && nextEntry < |journal.value.entries| && offset - journal.value.entries[nextEntry].p.durable < byteInterval
        && (now.None? || lastCheckpoint.None? || now.value - lastCheckpoint.value < timeInterval)
      ensures (!force && old(file.Some? && journal.Some? && nextEntry < |journal.value.entries|)
               && old(offset - journal.value.entries[nextEntry].p.durable) < byteInterval
               && (now.None? || old(lastCheckpoint).None? || now.value - old(lastCheckpoint).value < timeInterval)) ==> r.Fine? && !done
      ensures done ==> lastCheckpoint == Some(ClockOf(now, io))
      ensures disk.parts == old(disk.parts) && disk.verified == old(disk.verified)
      ensures old(file).None? ==> !done && r.Fine?
      ensures force && r.Fine? && old(file).Some? ==> done
      ensures r.JournalError? && phase == Receiving ==>
        && Abs() == old(Abs()) && tracker == old(tracker)
        && file.Some? && journal.Some? && nextEntry < |journal.value.entries| && !CanUpdate(sha, Abs(), false)
      ensures Perfect(io) && !r.Fine? ==> r.JournalError? && phase == Receiving
      ensures Perfect(io) && force && old(file).Some? && !old(CanUpdate(sha, Abs(), false)) ==> !r.Fine?
      ensures phase == Receiving ==> Onward(old(journal), journal)
    {
      hide Core, Rest, Sound, StageInv, CanUpdate, Update, Counted, SameHeld, Waiting;
      HeldSelf(Abs());
      ghost var s := Abs();
      InvIsLive(sha, manifest.entries, s);
      CoreFacts(sha, manifest.entries, s);
      if file.None? {
        return false, Fine;
      }
      var byteDue := offset - journal.value.entries[nextEntry].p.durable >= byteInterval;
      var timeDue := now.Some? && lastCheckpoint.Some? && now.value - lastCheckpoint.value >= timeInterval;
      if !force && !byteDue && !timeDue {
        return false, Fine;
      }
      r := Record(false, io);
      done := r.Fine?;
      if done {
        lastCheckpoint := Some(ClockOf(now, io));
        StoredFacts(sha, manifest.entries, s, io.nowNs);
      }
    }

    // -------------------------------------------------------------- payload

    /** The chunk is the next expected range of the next file. */
    predicate Matches(c: PayloadChunk)
      reads this
    {
      && ChunkOk(sha, c) && c.transfer == transfer && IsFile(manifest.entries, nextEntry)
      && c.entry == nextEntry && c.offset == offset && offset + |c.payload| <= manifest.entries[nextEntry].size
    }

    /** Writes the payload to the open part. A failed or short write leaves some of it behind. */
    method Write(payload: Content, io: Io) returns (r: Reply)
      requires History() && Core(sha, manifest.entries, Abs()) && phase == Receiving && file.Some? && journal.Some? && Counted(Abs())
      requires nextEntry < |manifest.entries| && offset + |payload| <= manifest.entries[nextEntry].size
      modifies this
      ensures r.Fine? ==>
        && History() && Core(sha, manifest.entries, Abs()) && Counted(Abs()) && Received(old(Abs()), Abs(), payload)
        && (phase, journal, nextEntry, file, hashes, tracker) == old((phase, journal, nextEntry, file, hashes, tracker))
        && lastCheckpoint == old(lastCheckpoint) && offset == old(offset) + |payload| && hashed == old(hashed) + payload && bytesDone == old(bytesDone) + |payload|
      ensures !r.Fine? ==>
        && Valid() && phase == Failed && bytesDone == old(bytesDone)
        && failure == Some(if !io.writes.WriteBroke? then ShortWrite else if io.full then DiskFull else TargetWriteFailed)
      ensures r.Fine? <==> io.writes == WroteAll || (io.writes.WroteShort? && io.writes.n >= |payload|)
      ensures !r.Fine? && nextEntry in old(disk.parts) ==>
        && nextEntry in disk.parts && disk.verified == old(disk.verified)
        && disk.parts == old(disk.parts)[nextEntry := old(disk.parts)[nextEntry] + payload[..if io.writes.n < |payload| then io.writes.n else |payload|]]
    {
      hide Core, Rest, Sound, StageInv, Counted, Received, Entire, Past, Timed, Leftover, Ended, Recoverable, Owned, Atomic;
      CoreFacts(sha, manifest.entries, Abs());
      var partial := match io.writes case WroteAll => |payload| case WroteShort(n) => n case WriteBroke(n) => n;
      if io.writes.WriteBroke? || partial < |payload| {
        r := BreakOff(payload[..if partial < |payload| then partial else |payload|],
                      if io.writes.WriteBroke? then IoCode(io, TargetWriteFailed) else ShortWrite, io);
        return;
      }
      AppendedReceived(sha, manifest.entries, Abs(), payload);
      AtomicPart(disk, nextEntry, disk.parts[nextEntry] + payload);
      Persist(PartlyWritten(disk, nextEntry, payload));
      offset, hashed, bytesDone := offset + |payload|, hashed + payload, bytesDone + |payload|;
      return Fine;
    }

    /** A write that failed after some bytes: they stay behind the durable prefix, and the stage fails. */
    method BreakOff(written: Content, code: StageError, io: Io) returns (r: Reply)
      requires History() && Core(sha, manifest.entries, Abs()) && phase == Receiving && file.Some? && journal.Some?
      requires code != JournalCommitFailed && nextEntry in disk.parts
      modifies this`phase, this`failure, this`tracker, this`file, this`hashed, this`disk, this`journal, this`points, this`kept
      ensures Valid() && phase == Failed && !r.Fine? && failure == Some(code)
      ensures disk.verified == old(disk.verified) && disk.parts == old(disk.parts)[nextEntry := old(disk.parts)[nextEntry] + written]
    {
      hide Core, Rest, Sound, StageInv, Entire, Past, Timed, Leftover, Ended, Recoverable, Owned, Atomic;
      CoreFacts(sha, manifest.entries, Abs());
      PartlyWrittenSound(sha, manifest.entries, Abs(), written);
      RestSound(sha, manifest.entries, Abs().(disk := PartlyWritten(disk, nextEntry, written)));
      AtomicPart(disk, nextEntry, disk.parts[nextEntry] + written);
      Persist(PartlyWritten(disk, nextEntry, written));
      r := TerminalFailure(code, io);
    }

    /** The open file is full: it is completed, and everything behind it that needs no payload is passed. */
    method PassFile(io: Io) returns (r: Reply)
      requires History() && Core(sha, manifest.entries, Abs()) && phase == Receiving && file.Some? && journal.Some? && Counted(Abs())
      requires nextEntry < |manifest.entries| && offset == manifest.entries[nextEntry].size
      modifies this
      ensures bytesDone == old(bytesDone)
      ensures Valid() && (r.StreamError? ==> phase == Failed)
      ensures r.Fine? ==>
        && phase == Receiving && tracker == old(tracker) && file.None? && offset == 0
        && nextEntry == NextPayload(manifest.entries, old(nextEntry) + 1)
        && journal.Some? && journal != old(journal) && old(nextEntry) < |journal.value.entries|
        && journal.value.entries[old(nextEntry)].p.durable == old(offset)
      ensures phase == Receiving ==>
        && SameHeld(old(Abs()), Abs()) && journal.Some? && |journal.value.entries| == |manifest.entries|
        && journal.value.generation <= old(journal).value.generation + 1 + (nextEntry - old(nextEntry))
      ensures Perfect(io) && !r.Fine? ==> r.JournalError? && phase == Receiving && Stuck(sha, Abs())
      ensures phase == Receiving ==> Onward(old(journal), journal)
    {
      hide Core, Rest, Sound, StageInv, CanUpdate, Update, Counted, SameHeld, Waiting, FileClosed, Live, Stuck, NextPayload, Past, Ended, Leftover, Recoverable, T.Sane;
      ghost var s := Abs();
      HeldSelf(s);
      CoreFacts(sha, manifest.entries, s);
      r := CompleteFile(io);
      if r.Fine? {
        ghost var closed := Abs();
        FileClosedFacts(sha, manifest.entries, s, closed, io.nowNs);
        r := AdvanceNonPayloadEntries(io);
        if phase == Receiving {
          HeldTrans(s, closed, Abs());
          InvIsLive(sha, manifest.entries, Abs());
          CoreFacts(sha, manifest.entries, Abs());
        }
        if r.Fine? {
          PassedIsDurable(sha, manifest.entries, s, Abs());
        }
      } else if phase == Receiving {
        StuckWhenNotRecordable(sha, manifest.entries, s);
        StuckIsLive(sha, manifest.entries, s);
      }
    }

    /** After a write: the file is completed and passed when it is full, else checkpointed when due. */
    method Advance(now: Option<real>, io: Io) returns (checkpointed: bool, r: Reply)
      requires History() && Core(sha, manifest.entries, Abs()) && phase == Receiving && file.Some? && journal.Some? && Counted(Abs())
      requires nextEntry < |manifest.entries| && 0 < offset
      modifies this
      ensures bytesDone == old(bytesDone)
      ensures Valid() && (r.StreamError? ==> phase == Failed)
      ensures r.Fine? ==>
        && phase == Receiving && tracker == old(tracker) && bytesDone == old(bytesDone)
        && (nextEntry, offset) == Position(manifest.entries, old(nextEntry), old(offset))
      ensures r.Fine? && file.Some? ==>
        && journal.Some? && nextEntry == old(nextEntry) < |journal.value.entries|
        && (0 < byteInterval ==> offset - journal.value.entries[nextEntry].p.durable < byteInterval)
        && (now.Some? && 0.0 < timeInterval && lastCheckpoint.Some? ==> now.value - lastCheckpoint.value < timeInterval)
      ensures r.Fine? && file.Some? && now.Some? && old(lastCheckpoint).Some? ==> lastCheckpoint.Some?
      ensures r.Fine? ==> journal.Some? && old(nextEntry) < |journal.value.entries| && (checkpointed <==> journal != old(journal))
      ensures r.Fine? && checkpointed ==> journal.value.entries[old(nextEntry)].p.durable == old(offset)
      ensures (r.Fine? && file.Some? && offset - old(journal).value.entries[nextEntry].p.durable < byteInterval
               && (now.None? || (old(lastCheckpoint).Some? && now.value - old(lastCheckpoint).value < timeInterval))) ==>
        journal == old(journal)
      ensures phase == Receiving ==>
        && SameHeld(old(Abs()), Abs()) && journal.Some? && |journal.value.entries| == |manifest.entries|
        && journal.value.generation <= old(journal).value.generation + 1 + (nextEntry - old(nextEntry))
      ensures Perfect(io) && !r.Fine? ==> r.JournalError? && phase == Receiving && Stuck(sha, Abs())
      ensures phase == Receiving ==> Onward(old(journal), journal)
    {
      hide Core, Rest, Sound, StageInv, CanUpdate, Update, Counted, SameHeld, Waiting, FileClosed, Live, Stuck, NextPayload, Past, Ended, Leftover, Recoverable, T.Sane;
      ghost var s := Abs();
      HeldSelf(s);
      CoreFacts(sha, manifest.entries, s);
      if offset == manifest.entries[nextEntry].size {
        r := PassFile(io);
        checkpointed := true;
      } else {
        UnfinishedIsLive(sha, manifest.entries, s);
        checkpointed, r := Checkpoint(now, false, io);
        if r.Fine? {
          InvIsLive(sha, manifest.entries, Abs());
        } else if phase == Receiving {
          UnrecordedIsStuck(sha, manifest.entries, s);
        }
      }
    }

    /** Payload is activity: it restarts the wait, and it is what ends the wait for the first byte. */
    function Touched(k: T.Tracker, clock: real): T.Tracker {
      if k.phase == T.Receiving then T.Progressed(timeouts, k, clock) else T.Entered(timeouts, T.Receiving, clock)
    }

    lemma TouchedMeans(k: T.Tracker, clock: real)
      ensures var n := Touched(k, clock);
        && n.phase == T.Receiving && n.deadline == Some(clock + timeouts.noProgress)
        && n.fired == if k.phase == T.Receiving then k.fired else None
    {
    }

    function ClockOf(now: Option<real>, io: Io): real {
      if now.Some? then now.value else io.clock
    }

    /** Takes the next chunk. Anything but the next expected range fails the stage and changes no file. */
    method Accept(c: PayloadChunk, now: Option<real>, io: Io) returns (r: Reply, w: Option<VerifiedWrite>)
      requires Valid()
      modifies this
      ensures Valid() && (r.Fine? <==> w.Some?)
      ensures bytesDone == old(bytesDone) || (old(phase) == Receiving && old(Matches(c)) && bytesDone == old(bytesDone) + |c.payload|)
      ensures old(phase) != Receiving ==> r == StreamError(InvalidChunk) && Abs() == old(Abs())
      ensures old(phase) == Receiving && !old(Matches(c)) ==>
        !r.Fine? && phase == Failed && failure == Some(InvalidChunk) && nextEntry == old(nextEntry) && disk.parts == old(disk.parts) && disk.verified == old(disk.verified)
      ensures old(phase) == Receiving && !old(Matches(c)) && io.commits == Written && r.StreamError? ==>
        disk.journal == journal && journal.Some? && journal.value.state == J.Failed
      ensures r.Fine? ==>
        && c.transfer == transfer && 0 < |c.payload| <= 4194304 && c.checksum == sha(c.payload)
        && c.entry == old(nextEntry) < |manifest.entries| && manifest.entries[c.entry].kind == J.File
        && c.offset == old(offset) && c.offset + |c.payload| <= manifest.entries[c.entry].size
      ensures r.Fine? ==>
        && old(phase) == Receiving && phase == Receiving && old(Matches(c)) && bytesDone == old(bytesDone) + |c.payload|
        && (nextEntry, offset) == Position(manifest.entries, old(nextEntry), old(offset) + |c.payload|)
        && tracker == Touched(old(tracker), ClockOf(now, io))
      ensures r.Fine? && file.Some? ==>
        && journal.Some? && nextEntry == old(nextEntry) < |journal.value.entries|
        && (0 < byteInterval ==> offset - journal.value.entries[nextEntry].p.durable < byteInterval)
        && (now.Some? && 0.0 < timeInterval ==> lastCheckpoint.Some? && now.value - lastCheckpoint.value < timeInterval)
      ensures (r.Fine? && file.Some? && old(journal).Some? && nextEntry < |old(journal).value.entries|
               && offset - old(journal).value.entries[nextEntry].p.durable < byteInterval
               && (now.None? || (old(file.Some? && lastCheckpoint.Some?) && 0.0 <= now.value - old(lastCheckpoint).value < timeInterval))) ==>
        journal == old(journal)
      ensures old(phase) == Receiving && phase == Receiving ==>
        && Received(old(Abs()), Abs(), c.payload) && old(journal).Some? && journal.Some? && |journal.value.entries| == |manifest.entries|
        && journal.value.generation <= old(journal).value.generation + 1 + (nextEntry - old(nextEntry))
      ensures r.Fine? ==>
        && tracker.phase == T.Receiving && tracker.deadline == Some((if now.Some? then now.value else io.clock) + timeouts.noProgress)
        && tracker.fired == if old(tracker).phase == T.Receiving then old(tracker).fired else None
      ensures r.Fine? ==>
        && journal.Some? && |journal.value.entries| == |manifest.entries| && c.entry < |manifest.entries|
        && w.value == VerifiedWrite(c.entry, c.offset, |c.payload|, c.offset + |c.payload| == manifest.entries[c.entry].size,
                                    journal.value.entries[c.entry].p.durable, journal != old(journal))
        && (w.value.checkpointed ==> w.value.durable == c.offset + |c.payload|)
      ensures r.StreamError? ==> phase == Failed || old(phase) != Receiving
      ensures Perfect(io) && old(phase) == Receiving && old(Matches(c)) && !r.Fine? ==> r.JournalError? && phase == Receiving && Stuck(sha, Abs())
      ensures old(phase) == Receiving && phase == Receiving ==> Onward(old(journal), journal)
    {
      hide Core, Rest, Sound, StageInv, Counted, Received, Live, Stuck, Past, Touched, NextPayload, Position, Onward, Chained, Stepwise, Atomic, Mine, Entire, Timed, T.Sane;
      w := None;
      if phase != Receiving {
        return StreamError(InvalidChunk), None;
      }
      InvIsLive(sha, manifest.entries, Abs());
      CoreFacts(sha, manifest.entries, Abs());
      if !Matches(c) {
        r := TerminalFailure(InvalidChunk, io);
        return;
      }
      var checkpointed;
      checkpointed, r := Take(c.payload, now, io);
      if r.Fine? {
        TouchedMeans(old(tracker), ClockOf(now, io));
        w := Some(VerifiedWrite(c.entry, c.offset, |c.payload|, c.offset + |c.payload| == manifest.entries[c.entry].size,
                                journal.value.entries[c.entry].p.durable, checkpointed));
      }
    }

    /** The awaited file is open, and the time of its last checkpoint is not in the future. */
    method Begin(now: Option<real>, io: Io) returns (r: Reply)
      requires History() && Core(sha, manifest.entries, Abs()) && Counted(Abs()) && phase == Receiving && IsFile(manifest.entries, nextEntry)
      modifies this
      ensures bytesDone == old(bytesDone)
      ensures r.Fine? ==>
        && History() && Core(sha, manifest.entries, Abs()) && Counted(Abs()) && phase == Receiving && file.Some? && SameHeld(old(Abs()), Abs())
        && (journal, nextEntry, offset, bytesDone, tracker) == old((journal, nextEntry, offset, bytesDone, tracker))
      ensures r.Fine? && now.Some? ==> lastCheckpoint.Some? && lastCheckpoint.value <= now.value
      ensures r.Fine? && now.Some? && old(file.Some? && lastCheckpoint.Some?) && old(lastCheckpoint).value <= now.value ==>
        lastCheckpoint == old(lastCheckpoint)
      ensures !r.Fine? ==> Valid() && phase == Failed
      ensures io.opens ==> r.Fine?
    {
      hide Core, Rest, Sound, StageInv, Counted, SameHeld, Valid, Past, Leftover, Recoverable;
      ghost var s := Abs();
      CoreFacts(sha, manifest.entries, s);
      HeldSelf(s);
      r := Fine;
      if file.None? {
        OpenedHeld(sha, manifest.entries, s);
        r := OpenFile(io);
        if !r.Fine? {
          return;
        }
      }
      if now.Some? && (lastCheckpoint.None? || lastCheckpoint.value > now.value) {
        lastCheckpoint := now;
      }
    }

    /** The payload is written, and the wait starts over. */
    method Fill(payload: Content, clock: real, io: Io) returns (r: Reply)
      requires History() && Core(sha, manifest.entries, Abs()) && phase == Receiving && file.Some? && journal.Some? && Counted(Abs())
      requires nextEntry < |manifest.entries| && offset + |payload| <= manifest.entries[nextEntry].size
      modifies this
      ensures r.Fine? ==>
        && History() && Core(sha, manifest.entries, Abs()) && Counted(Abs()) && Received(old(Abs()), Abs(), payload)
        && (phase, journal, nextEntry, file) == old((phase, journal, nextEntry, file)) && lastCheckpoint == old(lastCheckpoint)
        && offset == old(offset) + |payload| && bytesDone == old(bytesDone) + |payload| && tracker == Touched(old(tracker), clock)
      ensures !r.Fine? ==> Valid() && phase == Failed && bytesDone == old(bytesDone)
      ensures io.writes == WroteAll ==> r.Fine?
    {
      hide Core, Rest, Sound, StageInv, Counted, Received, Valid, Past, Leftover, Ended, Recoverable, Owned;
      r := Write(payload, io);
      if r.Fine? {
        tracker := Touched(tracker, clock);
      }
    }

    /** The file is opened if need be, and the payload is written to it. */
    method Store(payload: Content, now: Option<real>, io: Io) returns (r: Reply)
      requires History() && Core(sha, manifest.entries, Abs()) && Counted(Abs()) && phase == Receiving && journal.Some?
      requires IsFile(manifest.entries, nextEntry) && offset + |payload| <= manifest.entries[nextEntry].size
      modifies this
      ensures r.Fine? ==>
        && History() && Core(sha, manifest.entries, Abs()) && Counted(Abs()) && Received(old(Abs()), Abs(), payload)
        && (phase, journal, nextEntry) == old((phase, journal, nextEntry)) && file.Some?
        && offset == old(offset) + |payload| && bytesDone == old(bytesDone) + |payload| && tracker == Touched(old(tracker), ClockOf(now, io))
      ensures r.Fine? && now.Some? ==> lastCheckpoint.Some? && lastCheckpoint.value <= now.value
      ensures r.Fine? && now.Some? && old(file.Some? && lastCheckpoint.Some?) && old(lastCheckpoint).value <= now.value ==>
        lastCheckpoint == old(lastCheckpoint)
      ensures !r.Fine? ==> Valid() && phase == Failed && bytesDone == old(bytesDone)
      ensures io.opens && io.writes == WroteAll ==> r.Fine?
    {
      hide Core, Rest, Sound, StageInv, Counted, SameHeld, Received, Valid, Past, Timed, Leftover, Ended, Recoverable, Owned, Touched, ClockOf;
      ghost var s := Abs();
      r := Begin(now, io);
      if !r.Fine? {
        return;
      }
      ghost var begun := Abs();
      CoreFacts(sha, manifest.entries, begun);
      r := Fill(payload, ClockOf(now, io), io);
      if r.Fine? {
        ReceivedThen(s, begun, Abs(), payload);
      }
    }

    /** The chunk is the expected one: it is stored, and the stage moves on. */
    method Take(payload: Content, now: Option<real>, io: Io) returns (checkpointed: bool, r: Reply)
      requires History() && Core(sha, manifest.entries, Abs()) && Counted(Abs()) && phase == Receiving && journal.Some? && Valid()
      requires IsFile(manifest.entries, nextEntry) && 0 < |payload| && offset + |payload| <= manifest.entries[nextEntry].size
      modifies this
      ensures Valid() && (r.StreamError? ==> phase == Failed)
      ensures bytesDone == old(bytesDone) || bytesDone == old(bytesDone) + |payload|
      ensures r.Fine? ==>
        && phase == Receiving && bytesDone == old(bytesDone) + |payload|
        && (nextEntry, offset) == Position(manifest.entries, old(nextEntry), old(offset) + |payload|)
        && tracker == Touched(old(tracker), ClockOf(now, io))
      ensures r.Fine? ==> journal.Some? && old(nextEntry) < |journal.value.entries| && (checkpointed <==> journal != old(journal))
      ensures r.Fine? && checkpointed ==> journal.value.entries[old(nextEntry)].p.durable == old(offset) + |payload|
      ensures r.Fine? && file.Some? ==>
        && journal.Some? && nextEntry == old(nextEntry) < |journal.value.entries|
        && (0 < byteInterval ==> offset - journal.value.entries[nextEntry].p.durable < byteInterval)
        && (now.Some? && 0.0 < timeInterval ==> lastCheckpoint.Some? && now.value - lastCheckpoint.value < timeInterval)
      ensures (r.Fine? && file.Some? && old(journal).Some? && nextEntry < |old(journal).value.entries|
               && offset - old(journal).value.entries[nextEntry].p.durable < byteInterval
               && (now.None? || (old(file.Some? && lastCheckpoint.Some?) && 0.0 <= now.value - old(lastCheckpoint).value < timeInterval))) ==>
        journal == old(journal)
      ensures phase == Receiving ==>
        && Received(old(Abs()), Abs(), payload) && journal.Some? && |journal.value.entries| == |manifest.entries|
        && journal.value.generation <= old(journal).value.generation + 1 + (nextEntry - old(nextEntry))
      ensures Perfect(io) && !r.Fine? ==> r.JournalError? && phase == Receiving && Stuck(sha, Abs())
      ensures phase == Receiving ==> Onward(old(journal), journal)
    {
      hide Core, Rest, Sound, StageInv, Counted, SameHeld, Received, Live, Stuck, Valid, NextPayload, Entire, Past, Leftover, Ended, Recoverable, Owned, Touched, ClockOf;
      ghost var s := Abs();
      checkpointed, r := false, Fine;
      r := Store(payload, now, io);
      if !r.Fine? {
        return;
      }
      ghost var full := Abs();
      checkpointed, r := Advance(now, io);
      if phase == Receiving {
        ReceivedThen(s, full, Abs(), payload);
      }
    }

    // -------------------------------------------------------------- creating and reopening

    /** A new stage: its journal exists, its directory is made, nothing is received. The caller then
        passes the entries that need no payload. */
    constructor Create(sha: Content -> Digest, manifest: J.Manifest, j: J.Journal, byteInterval: nat, timeInterval: real,
                       timeouts: T.Timeouts, clock: real)
      requires StageJournal(sha, manifest.entries, j) && Pristine(j)
      ensures History() && Core(sha, manifest.entries, Abs()) && phase == Receiving && file.None? && journal.Some? && Counted(Abs())
      ensures this.sha == sha && this.manifest == manifest && transfer == j.transfer && binding == j.binding && this.timeouts == timeouts
      ensures this.byteInterval == byteInterval && this.timeInterval == timeInterval && journal == Some(j)
      ensures resumeBytes == 0 && lastCheckpoint.None? && failure.None? && !sealed && disk == Disk(true, map[], map[], Some(j))
      ensures nextEntry == 0 && bytesDone == 0 && tracker == T.Entered(timeouts, T.Preflight, clock)
    {
      this.sha, this.manifest, transfer, binding := sha, manifest, j.transfer, j.binding;
      this.byteInterval, this.timeInterval, this.timeouts := byteInterval, timeInterval, timeouts;
      disk, journal, phase := Disk(true, map[], map[], Some(j)), Some(j), Receiving;
      nextEntry, file, offset, hashed, hashes, bytesDone, resumeBytes := 0, None, 0, [], map[], 0, 0;
      lastCheckpoint, failure, sealed := None, None, false;
      tracker := T.Entered(timeouts, T.Preflight, clock);
      points, kept := [Disk(false, map[], map[], Some(j)), Disk(true, map[], map[], Some(j))], 2;
      new;
      AtomicDirectory(Disk(false, map[], map[], Some(j)), true);
      PristineCore(sha, manifest.entries, Abs(), Disk(false, map[], map[], Some(j)));
    }

    /** A stage found on disk, before anything in it was read. A missing directory is made again: only
        a stage that never received anything can lack it. */
    constructor Attach(sha: Content -> Digest, manifest: J.Manifest, found: Disk, byteInterval: nat, timeInterval: real,
                       timeouts: T.Timeouts, clock: real)
      requires Recoverable(sha, manifest.entries, found) && !Terminal(found.journal.value.state)
      ensures History() && Reading(sha, manifest.entries, Abs()) && phase == Receiving && nextEntry == 0
      ensures this.sha == sha && this.manifest == manifest && transfer == found.journal.value.transfer && binding == found.journal.value.binding && this.timeouts == timeouts
      ensures this.byteInterval == byteInterval && this.timeInterval == timeInterval
      ensures bytesDone == 0 && resumeBytes == 0 && lastCheckpoint.None? && failure.None?
      ensures disk == found.(present := true) && tracker == T.Entered(timeouts, T.Receiving, clock) && !sealed
      ensures points == [found, found.(present := true)]
    {
      this.sha, this.manifest, transfer, binding := sha, manifest, found.journal.value.transfer, found.journal.value.binding;
      this.byteInterval, this.timeInterval, this.timeouts := byteInterval, timeInterval, timeouts;
      disk, journal, phase := found.(present := true), found.journal, Receiving;
      nextEntry, file, offset, hashed, hashes, bytesDone, resumeBytes := 0, None, 0, [], map[], 0, 0;
      lastCheckpoint, failure, sealed := None, None, false;
      tracker := T.Entered(timeouts, T.Receiving, clock);
      points, kept := [found, found.(present := true)], 2;
      new;
      FoundReading(sha, manifest.entries, Abs(), found);
    }

    /** A file the journal calls verified but that a crash left under its part name is renamed again. */
    method RestoreName()
      requires History() && Reading(sha, manifest.entries, Abs()) && IsFile(manifest.entries, nextEntry)
      requires journal.Some? && |journal.value.entries| == |manifest.entries| && Through(journal.value.entries[nextEntry])
      modifies this`disk, this`points, this`kept
      ensures History() && ReadOn(sha, manifest.entries, old(Abs()), Abs(), nextEntry + 1)
      ensures journal.value.entries[nextEntry].p.storage == J.Verified ==> nextEntry in disk.verified
      ensures Steady(journal.value.state, old(points), points)
    {
      hide Reading, ReadOn, Sound, SameHeld, Unread, Past, Steady;
      SteadySelf(journal.value.state, points);
      ghost var s := Abs();
      CompleteFileThere(sha, manifest.entries, s);
      ReadOnSelf(sha, manifest.entries, s, nextEntry + 1);
      if journal.value.entries[nextEntry].p.storage == J.Verified && nextEntry !in disk.verified {
        RenamedReadOn(sha, manifest.entries, s);
        ReadOnReading(sha, manifest.entries, s, s.(disk := Renamed(disk, nextEntry)), nextEntry + 1);
        StoredState(sha, manifest.entries, s);
        SteadyStep(journal.value.state, points, Renamed(disk, nextEntry));
        AtomicRename(disk, nextEntry);
        Persist(Renamed(disk, nextEntry));
      }
    }

    /** A complete file: brought to its verified name if the journal says so, and hashed again. */
    method RestoreComplete(io: Io) returns (r: Reply)
      requires History() && Reading(sha, manifest.entries, Abs()) && phase == Receiving && IsFile(manifest.entries, nextEntry)
      requires journal.Some? && |journal.value.entries| == |manifest.entries| && Through(journal.value.entries[nextEntry])
      modifies this
      ensures History() && (r.StreamError? ==> io.commits != Written)
      ensures r.JournalError? ==> old(journal).value.generation >= UINT64_MAX
      ensures r.Fine? ==>
        && ReadOn(sha, manifest.entries, old(Abs()), Abs(), nextEntry) && nextEntry == old(nextEntry) + 1 && tracker == old(tracker)
        && journal.Some? && journal.value.generation <= old(journal).value.generation + 1
        && journal.value.retryCount == old(journal).value.retryCount && journal.value.state == old(journal).value.state
      ensures r.Fine? ==> Steady(journal.value.state, old(points), points)
    {
      hide Reading, ReadOn, Sound, StageInv, SameHeld, Unread, Valid, Past, Timed, Entire, Rest, Owned, NameAgrees, Steady;
      ghost var s := Abs();
      var digest;
      digest, r := RestoreStorage(io);
      if !r.Fine? {
        return;
      }
      ghost var recorded := Abs();
      ReadOnReading(sha, manifest.entries, s, recorded, nextEntry + 1);
      Pass(digest);
      ReadOnTrans(sha, manifest.entries, s, recorded, Abs(), nextEntry, nextEntry);
    }

    /** The complete file has the name the journal says, and the journal knows the name it has. */
    method RestoreStorage(io: Io) returns (digest: Digest, r: Reply)
      requires History() && Reading(sha, manifest.entries, Abs()) && phase == Receiving && IsFile(manifest.entries, nextEntry)
      requires journal.Some? && |journal.value.entries| == |manifest.entries| && Through(journal.value.entries[nextEntry])
      modifies this`disk, this`journal, this`points, this`kept
      ensures History() && (r.StreamError? ==> io.commits != Written)
      ensures r.JournalError? ==> old(journal).value.generation >= UINT64_MAX
      ensures r.Fine? ==>
        && ReadOn(sha, manifest.entries, old(Abs()), Abs(), nextEntry + 1)
        && journal.Some? && |journal.value.entries| == |manifest.entries| && Through(journal.value.entries[nextEntry])
        && journal.value.entries[nextEntry].p.receiver == Some(digest) && NameAgrees(Abs(), nextEntry)
        && journal.value.generation <= old(journal).value.generation + 1
        && journal.value.retryCount == old(journal).value.retryCount && journal.value.state == old(journal).value.state
      ensures r.Fine? ==> Steady(journal.value.state, old(points), points)
    {
      hide Reading, ReadOn, Sound, StageInv, SameHeld, Unread, Valid, Past, Timed, Entire, Rest, Owned, Steady;
      ghost var s := Abs();
      RestoreName();
      ghost var named, before := Abs(), points;
      ReadOnReading(sha, manifest.entries, s, named, nextEntry + 1);
      CompleteFileThere(sha, manifest.entries, named);
      digest, r := sha(if nextEntry in disk.verified then disk.verified[nextEntry] else disk.parts[nextEntry]), Fine;
      if journal.value.entries[nextEntry].p.storage != J.Verified && nextEntry in disk.verified {
        r := RecordVerified(digest, io);
        if r.Fine? {
          ReadOnTrans(sha, manifest.entries, s, named, Abs(), nextEntry + 1, nextEntry + 1);
          SteadyTrans(journal.value.state, old(points), before, points);
        }
      }
    }

    method Pass(digest: Digest)
      requires Reading(sha, manifest.entries, Abs()) && IsFile(manifest.entries, nextEntry)
      requires journal.Some? && nextEntry < |journal.value.entries| && Through(journal.value.entries[nextEntry])
      requires journal.value.entries[nextEntry].p.receiver == Some(digest) && NameAgrees(Abs(), nextEntry)
      modifies this`hashes, this`nextEntry
      ensures nextEntry == old(nextEntry) + 1 && ReadOn(sha, manifest.entries, old(Abs()), Abs(), nextEntry)
    {
      hide Reading, ReadOn;
      RehashedReadOn(sha, manifest.entries, Abs(), digest);
      hashes, nextEntry := hashes[nextEntry := digest], nextEntry + 1;
    }

    /** The journal learns that a complete file already has its verified name. */
    method RecordVerified(digest: Digest, io: Io) returns (r: Reply)
      requires History() && Reading(sha, manifest.entries, Abs()) && phase == Receiving && IsFile(manifest.entries, nextEntry)
      requires journal.Some? && |journal.value.entries| == |manifest.entries| && Through(journal.value.entries[nextEntry])
      requires journal.value.entries[nextEntry].p.receiver == Some(digest) && nextEntry in disk.verified
      modifies this`disk, this`journal, this`points, this`kept
      ensures History() && (r.StreamError? ==> io.commits != Written)
      ensures r.JournalError? ==> old(journal).value.generation >= UINT64_MAX
      ensures r.Fine? ==>
        && ReadOn(sha, manifest.entries, old(Abs()), Abs(), nextEntry + 1) && nextEntry == old(nextEntry) && tracker == old(tracker)
        && journal.Some? && |journal.value.entries| == |manifest.entries| && Through(journal.value.entries[nextEntry])
        && journal.value.entries[nextEntry].p.receiver == Some(digest) && NameAgrees(Abs(), nextEntry)
        && journal.value.generation <= old(journal).value.generation + 1
        && journal.value.retryCount == old(journal).value.retryCount && journal.value.state == old(journal).value.state
      ensures r.Fine? ==> Steady(journal.value.state, old(points), points)
    {
      hide Reading, ReadOn, Sound, StageInv, VerifiedUpdate, J.TransitionFault, SameHeld, Unread, Through, Valid, Past, Entire, Leftover, Recoverable, Timed, Rest;
      ReadingFacts(sha, manifest.entries, Abs());
      VerifiedReadOn(sha, manifest.entries, Abs(), digest, io.nowNs);
      var next := VerifiedUpdate(sha, Abs(), digest, io.nowNs);
      if next.Err? {
        return JournalError(next.error);
      }
      ReadOnReading(sha, manifest.entries, Abs(), Stored(Abs(), next.value), nextEntry + 1);
      var ok, code := CommitJournal(next.value, io);
      return if ok then Fine else StreamError(code);
    }

    /** An empty file never started is created, completed and passed on the spot. */
    method RestoreEmpty(io: Io) returns (r: Reply)
      requires History() && Reading(sha, manifest.entries, Abs()) && Core(sha, manifest.entries, Abs()) && phase == Receiving
      requires IsFile(manifest.entries, nextEntry) && manifest.entries[nextEntry].size == 0 && file.None?
      modifies this
      ensures History()
      ensures r.Fine? ==>
        && ReadOn(sha, manifest.entries, old(Abs()), Abs(), nextEntry) && nextEntry == old(nextEntry) + 1
        && old(journal).Some? && journal.Some? && journal.value.generation <= old(journal).value.generation + 1
        && journal.value.retryCount == old(journal).value.retryCount && tracker == old(tracker)
      ensures Perfect(io) && !r.Fine? ==> old(journal).Some? && (old(journal).value.generation >= UINT64_MAX || !EmptyHashTrue(old(nextEntry)))
      ensures r.Fine? ==> journal.Some? && journal.value.state == J.Transferring
    {
      hide Reading, ReadOn, Core, Sound, StageInv, Valid, Past, Rest, Owned, Recoverable, Waiting, FileClosed, CanUpdate, Update;
      ghost var s := Abs();
      CoreFacts(sha, manifest.entries, s);
      r := OpenFile(io);
      if !r.Fine? {
        return;
      }
      ghost var begun := Abs();
      CoreFacts(sha, manifest.entries, begun);
      r := CompleteFile(io);
      if r.Fine? {
        EmptyRead(sha, manifest.entries, s, Abs(), io.nowNs);
        FileClosedFacts(sha, manifest.entries, begun, Abs(), io.nowNs);
        FileClosedState(sha, manifest.entries, begun, Abs(), io.nowNs);
      } else if phase == Receiving {
        assert begun == Opened(s);
        StuckWhenNotRecordable(sha, manifest.entries, begun);
      }
    }

    /** The manifest names no wrong hash for an empty file. */
    predicate EmptyHashTrue(i: nat)
      requires i < |manifest.entries|
    {
      manifest.entries[i].expected.Some? ==> manifest.entries[i].expected == Some(sha([]))
    }

    predicate EmptyHashesTrue() {
      forall i: nat :: i < |manifest.entries| && IsFile(manifest.entries, i) && manifest.entries[i].size == 0 ==> EmptyHashTrue(i)
    }

    /** There is room for the generations and the retry a reopening records. */
    predicate RoomToRestore()
      requires journal.Some?
      reads this`journal
    {
      journal.value.generation + |manifest.entries| < UINT64_MAX && journal.value.retryCount < UINT64_MAX
    }

    /** The part a crash left is cut back to its durable prefix and opened behind it. */
    method RestorePart(io: Io)
      requires History() && Reading(sha, manifest.entries, Abs()) && IsFile(manifest.entries, nextEntry) && nextEntry in disk.parts
      requires journal.Some? && |journal.value.entries| == |manifest.entries| && !Through(journal.value.entries[nextEntry])
      modifies this`disk, this`points, this`kept, this`file, this`offset, this`hashed, this`lastCheckpoint
      ensures History() && Core(sha, manifest.entries, Abs()) && Waiting(sha, manifest.entries, Abs())
      ensures file == Some(nextEntry) && offset == journal.value.entries[nextEntry].p.durable && CutBack(old(Abs()), Abs())
      ensures lastCheckpoint == Some(io.clock)
    {
      hide Reading, Core, Sound, Past, Waiting, CutBack, Timed, Entire, Leftover, Ended, Recoverable, Atomic;
      ghost var s := Abs();
      ReadingFacts(sha, manifest.entries, s);
      DurablePartThere(sha, manifest.entries, s);
      ResumedCore(sha, manifest.entries, s);
      CoreFacts(sha, manifest.entries, Resumed(s));
      RestSound(sha, manifest.entries, Resumed(s));
      CutBackResumed(s);
      var durable := journal.value.entries[nextEntry].p.durable;
      var c := disk.parts[nextEntry][..durable];
      AtomicPart(disk, nextEntry, c);
      Persist(disk.(parts := disk.parts[nextEntry := c]));
      file, offset, hashed, lastCheckpoint := Some(nextEntry), durable, c, Some(io.clock);
    }

    /** How far a reopening that began as `s` has got. */
    ghost predicate Restoring(s: Stage)
      requires s.journal.Some? && |s.journal.value.entries| == |manifest.entries|
      reads this
    {
      && ReadOn(sha, manifest.entries, s, Abs(), nextEntry) && PassedAll(manifest.entries, s, nextEntry)
      && journal.Some? && |journal.value.entries| == |manifest.entries| && nextEntry <= |manifest.entries|
      && journal.value.generation <= s.journal.value.generation + nextEntry && journal.value.retryCount == s.journal.value.retryCount
      && (AllComplete(s.journal.value.entries) ==> journal.value.state == s.journal.value.state)
      && RestoredState(s.journal, journal, nextEntry)
    }

    /** One entry: passed, or the file at which receiving goes on. None of the checks that would find it
        corrupt can fail: the asserts stand where the stage looks for them. */
    method RestoreNext(ghost s: Stage, io: Io) returns (stop: bool, r: Reply)
      requires s.journal.Some? && |s.journal.value.entries| == |manifest.entries| && Restoring(s)
      requires History() && phase == Receiving && nextEntry < |manifest.entries|
      modifies this
      ensures History()
      ensures r.Fine? ==> Restoring(s) && phase == Receiving && tracker == old(tracker)
      ensures r.Fine? && !stop ==> nextEntry == old(nextEntry) + 1
      ensures r.Fine? && stop ==>
        && Abs() == old(Abs()) && IsFile(manifest.entries, nextEntry) && !Through(journal.value.entries[nextEntry])
        && (nextEntry in disk.parts || manifest.entries[nextEntry].size != 0)
      ensures Perfect(io) && s.journal.value.generation + |manifest.entries| < UINT64_MAX && EmptyHashesTrue() ==> r.Fine?
      ensures r.Fine? && AllComplete(s.journal.value.entries) ==> Steady(s.journal.value.state, old(points), points)
    {
      hide Reading, ReadOn, Core, Sound, StageInv, Valid, Past, Rest, Owned, Recoverable, Waiting, CutBack, SameHeld, Unread, Counted, Live, Stuck, FileHeld, PassedAll, Leftover, AllComplete, Steady;
      stop, r := false, Fine;
      SteadySelf(s.journal.value.state, points);
      ghost var here := Abs();
      ReadOnReading(sha, manifest.entries, s, here, nextEntry);
      ReadingFacts(sha, manifest.entries, here);
      if manifest.entries[nextEntry].kind == J.Directory {
        DirectoryRead(sha, manifest.entries, here);
        PassedOne(manifest.entries, s, here);
        SameEntry(s, here);
        nextEntry := nextEntry + 1;
      } else if Through(journal.value.entries[nextEntry]) {
        CompleteFileThere(sha, manifest.entries, here);
        assert !(nextEntry in disk.parts && nextEntry in disk.verified) && (nextEntry in disk.parts || nextEntry in disk.verified);
        PassedOne(manifest.entries, s, here);
        SameEntry(s, here);
        r := RestoreComplete(io);
      } else {
        DurablePartThere(sha, manifest.entries, here);
        assert nextEntry !in disk.verified && (journal.value.entries[nextEntry].p.durable > 0 ==> nextEntry in disk.parts);
        if nextEntry in disk.parts || manifest.entries[nextEntry].size != 0 {
          return true, Fine;
        }
        ReadingToCore(sha, manifest.entries, here);
        PassedOne(manifest.entries, s, here);
        NotAllComplete(sha, manifest.entries, s, here);
        r := RestoreEmpty(io);
      }
      if r.Fine? {
        ReadOnTrans(sha, manifest.entries, s, here, Abs(), here.next, nextEntry);
        ReadOnReading(sha, manifest.entries, s, Abs(), nextEntry);
      }
    }

    /** The entry about to be read is the one the reopening began with. */
    lemma SameEntry(s: Stage, here: Stage)
      requires Unread(s, here, here.next) && here.next < |manifest.entries| == |here.journal.value.entries|
      ensures s.journal.Some? && here.next < |s.journal.value.entries| && s.journal.value.entries[here.next] == here.journal.value.entries[here.next]
    {
    }

    /** Rebuilds the stage from its journal and its files. None of the checks that would find the
        stage corrupt can fail here. */
    method Restore(io: Io) returns (r: Reply)
      requires History() && Reading(sha, manifest.entries, Abs()) && phase == Receiving && nextEntry == 0 && journal.Some?
      requires |journal.value.entries| == |manifest.entries|
      modifies this
      ensures History()
      ensures r.Fine? ==>
        && Valid() && phase == Receiving && tracker == old(tracker) && journal.Some? && |journal.value.entries| == |manifest.entries|
        && bytesDone == resumeBytes == RestoredBytes(journal.value.entries)
        && (file.Some? ==> nextEntry < |manifest.entries| && offset == journal.value.entries[nextEntry].p.durable)
        && CutBack(old(Abs()), Abs()) && PassedAll(manifest.entries, old(Abs()), nextEntry)
        && (nextEntry < |manifest.entries| ==>
              && !Through(old(journal).value.entries[nextEntry]) && IsFile(manifest.entries, nextEntry)
              && journal.value.entries[nextEntry] == old(journal).value.entries[nextEntry]
              && (file.Some? <==> nextEntry in old(disk.parts)))
        && journal.value.generation <= old(journal).value.generation + nextEntry + 1
        && (AllComplete(old(journal).value.entries) ==> journal.value.state == old(journal).value.state)
      ensures Perfect(io) && old(RoomToRestore()) && EmptyHashesTrue() ==> r.Fine?
      ensures r.Fine? ==> old(journal).Some? && RestoredState(old(journal), journal, nextEntry)
      ensures r.Fine? && AllComplete(old(journal).value.entries) && nextEntry == |manifest.entries| ==>
        Steady(old(journal).value.state, old(points), points)
    {
      hide Reading, ReadOn, Core, Sound, StageInv, Valid, Past, Rest, Owned, Recoverable, Waiting, CutBack, SameHeld, Unread, Counted, Live, Stuck, FileHeld, Leftover, Steady;
      ghost var s := Abs();
      ReadOnSelf(sha, manifest.entries, s, 0);
      assert PassedAll(manifest.entries, s, 0);
      hide PassedAll;
      SteadySelf(s.journal.value.state, points);
      var stop := false;
      while !stop && nextEntry < |manifest.entries|
        invariant History() && phase == Receiving && tracker == old(tracker) && Restoring(s)
        invariant AllComplete(s.journal.value.entries) ==> Steady(s.journal.value.state, old(points), points)
        invariant stop ==>
          && nextEntry < |manifest.entries| && IsFile(manifest.entries, nextEntry) && !Through(journal.value.entries[nextEntry])
          && (nextEntry in disk.parts || manifest.entries[nextEntry].size != 0)
        decreases |manifest.entries| - nextEntry, !stop
      {
        ghost var before := points;
        stop, r := RestoreNext(s, io);
        if !r.Fine? {
          return;
        }
        if AllComplete(s.journal.value.entries) {
          SteadyTrans(s.journal.value.state, old(points), before, points);
        }
      }
      ReadOnReading(sha, manifest.entries, s, Abs(), nextEntry);
      ghost var before := points;
      r := RestoreRest(s, io);
      if r.Fine? && AllComplete(s.journal.value.entries) && nextEntry == |manifest.entries| {
        SteadyTrans(s.journal.value.state, old(points), before, points);
      }
    }

    /** The end of reopening: the first incomplete file, the byte count and one more retry. */
    method RestoreRest(ghost s: Stage, io: Io) returns (r: Reply)
      requires History() && phase == Receiving && ReadOn(sha, manifest.entries, s, Abs(), nextEntry)
      requires journal.Some? && |journal.value.entries| == |manifest.entries|
      requires nextEntry < |manifest.entries| ==>
        && IsFile(manifest.entries, nextEntry) && !Through(journal.value.entries[nextEntry])
        && (nextEntry in disk.parts || manifest.entries[nextEntry].size != 0)
      modifies this
      ensures History()
      ensures r.Fine? ==>
        && Valid() && phase == Receiving && tracker == old(tracker) && journal.Some? && |journal.value.entries| == |manifest.entries|
        && bytesDone == resumeBytes == RestoredBytes(journal.value.entries) && nextEntry == old(nextEntry)
        && (file.Some? ==> nextEntry < |manifest.entries| && offset == journal.value.entries[nextEntry].p.durable)
        && CutBack(s, Abs())
        && (nextEntry < |manifest.entries| ==> (file.Some? <==> nextEntry in old(disk.parts)))
        && journal.value.entries == old(journal).value.entries && journal.value.state == old(journal).value.state
        && journal.value.generation == old(journal).value.generation + 1
      ensures Perfect(io) && old(journal).value.generation < UINT64_MAX && old(journal).value.retryCount < UINT64_MAX ==> r.Fine?
      ensures r.Fine? && nextEntry == |manifest.entries| ==> Steady(journal.value.state, old(points), points)
    {
      hide Reading, ReadOn, Core, Sound, StageInv, Valid, Past, Rest, Owned, Recoverable, Waiting, CutBack, Counted, Timed, T.Sane, RestoredBytes, Through, Steady;
      RestorePosition(s, io);
      CountRestored(s);
      r := CountRetry(s, io);
    }

    /** The first incomplete file: its part is opened again if there is one. */
    method RestorePosition(ghost s: Stage, io: Io)
      requires History() && phase == Receiving && ReadOn(sha, manifest.entries, s, Abs(), nextEntry)
      requires journal.Some? && |journal.value.entries| == |manifest.entries|
      requires nextEntry < |manifest.entries| ==>
        && IsFile(manifest.entries, nextEntry) && !Through(journal.value.entries[nextEntry])
        && (nextEntry in disk.parts || manifest.entries[nextEntry].size != 0)
      modifies this`disk, this`points, this`kept, this`file, this`offset, this`hashed, this`lastCheckpoint
      ensures History() && Core(sha, manifest.entries, Abs()) && Waiting(sha, manifest.entries, Abs()) && CutBack(s, Abs())
      ensures file.Some? ==> nextEntry < |manifest.entries| && offset == journal.value.entries[nextEntry].p.durable
      ensures nextEntry < |manifest.entries| ==> (file.Some? <==> nextEntry in old(disk.parts))
      ensures nextEntry == |manifest.entries| ==> points == old(points)
    {
      hide Reading, ReadOn, Core, Sound, StageInv, Past, Recoverable, Waiting, CutBack, Timed;
      ghost var here := Abs();
      ReadOnReading(sha, manifest.entries, s, here, nextEntry);
      ReadingFacts(sha, manifest.entries, here);
      if nextEntry < |manifest.entries| && nextEntry in disk.parts {
        RestorePart(io);
      } else {
        ReadToEnd(sha, manifest.entries, here);
      }
      ReadThenCut(s, here, Abs());
    }

    /** Every byte found is counted once. */
    method CountRestored(ghost s: Stage)
      requires Core(sha, manifest.entries, Abs()) && Waiting(sha, manifest.entries, Abs()) && CutBack(s, Abs()) && journal.Some?
      requires |journal.value.entries| == |manifest.entries|
      requires file.Some? ==> nextEntry < |manifest.entries| && offset == journal.value.entries[nextEntry].p.durable
      modifies this`bytesDone, this`resumeBytes
      ensures Core(sha, manifest.entries, Abs()) && Waiting(sha, manifest.entries, Abs()) && CutBack(s, Abs()) && Counted(Abs())
      ensures bytesDone == resumeBytes == RestoredBytes(journal.value.entries)
    {
      hide Core, Waiting, CutBack, RestoredBytes;
      RestoredCounted(sha, manifest.entries, Abs());
      CountingKeeps(sha, manifest.entries, s, Abs(), RestoredBytes(journal.value.entries));
      bytesDone := RestoredBytes(journal.value.entries);
      resumeBytes := bytesDone;
    }

    method CountRetry(ghost s: Stage, io: Io) returns (r: Reply)
      requires History() && phase == Receiving && Core(sha, manifest.entries, Abs()) && Waiting(sha, manifest.entries, Abs())
      requires journal.Some? && Counted(Abs()) && CutBack(s, Abs())
      modifies this`disk, this`journal, this`points, this`kept
      ensures History()
      ensures r.Fine? ==>
        && Valid() && journal.Some? && journal.value.entries == old(journal).value.entries && CutBack(s, Abs())
        && journal.value.state == old(journal).value.state
        && journal.value.generation == old(journal).value.generation + 1
      ensures Perfect(io) && old(journal).value.generation < UINT64_MAX && old(journal).value.retryCount < UINT64_MAX ==> r.Fine?
      ensures r.Fine? ==> Steady(journal.value.state, old(points), points)
    {
      hide Core, Sound, StageInv, Past, Waiting, CutBack, SameHeld, Counted, J.TransitionFault, J.UpdateState;
      ghost var here := Abs();
      CoreFacts(sha, manifest.entries, here);
      RestSound(sha, manifest.entries, here);
      RetryStep(sha, manifest.entries, here, io.nowNs);
      var next := J.UpdateState(sha([]), journal.value, journal.value.state, Some(journal.value.retryCount + 1), io.nowNs);
      if next.Err? {
        return JournalError(next.error);
      }
      var ok, code := CommitJournal(next.value, io);
      if ok {
        CutThenSame(s, here, Abs());
      }
      return if ok then Fine else StreamError(code);
    }

    // -------------------------------------------------------------- finalizing

    /** The completion is about this transfer and covers exactly its entries. */
    ghost predicate Binds(c: Completion) {
      && c.transfer == transfer && c.manifest == manifest.digest && c.total == SizeOf(manifest.entries)
      && (forall i :: i in c.hashes <==> IsFile(manifest.entries, i))
      && (forall i :: i in c.fingerprints <==> 0 <= i < |manifest.entries|)
    }

    /** Its fingerprints are the manifest's and its hashes are the ones the stage computed. */
    ghost predicate Agrees(c: Completion)
      requires Binds(c)
      reads this`hashes
    {
      && (forall i :: 0 <= i < |manifest.entries| ==> c.fingerprints[i] == manifest.entries[i].fingerprint)
      && (forall i :: IsFile(manifest.entries, i) ==> i in hashes && hashes[i] == c.hashes[i])
    }

    method CheckBinding(c: Completion) returns (ok: bool)
      ensures ok <==> Binds(c)
    {
      var files, all, i := {}, {}, 0;
      while i < |manifest.entries|
        invariant 0 <= i <= |manifest.entries|
        invariant forall k :: k in files <==> 0 <= k < i && IsFile(manifest.entries, k)
        invariant forall k :: k in all <==> 0 <= k < i
      {
        all := all + {i};
        if manifest.entries[i].kind == J.File {
          files := files + {i};
        }
        i := i + 1;
      }
      KeysAre(c.hashes, files);
      KeysAre(c.fingerprints, all);
      ok := c.transfer == transfer && c.manifest == manifest.digest && c.total == SizeOf(manifest.entries)
        && c.hashes.Keys == files && c.fingerprints.Keys == all;
    }

    method CheckEvidence(c: Completion) returns (fault: Option<StageError>)
      requires Binds(c)
      ensures fault.None? <==> Agrees(c)
      ensures fault.Some? ==> fault.value in {SourceChanged, HashMismatch}
    {
      var i := 0;
      while i < |manifest.entries|
        invariant 0 <= i <= |manifest.entries|
        invariant forall k :: 0 <= k < i ==> c.fingerprints[k] == manifest.entries[k].fingerprint
        invariant forall k :: 0 <= k < i && IsFile(manifest.entries, k) ==> k in hashes && hashes[k] == c.hashes[k]
      {
        if c.fingerprints[i] != manifest.entries[i].fingerprint {
          return Some(SourceChanged);
        }
        if manifest.entries[i].kind == J.File {
          assert IsFile(manifest.entries, i);
          if i !in hashes || hashes[i] != c.hashes[i] {
            return Some(HashMismatch);
          }
        }
        i := i + 1;
      }
      return None;
    }

    /** Everything arrived and the sender's evidence matches it. */
    ghost predicate FinalizeReady(c: Completion)
      reads this
    {
      phase == Receiving && nextEntry == |manifest.entries| && file.None? && Binds(c) && Agrees(c)
    }

    /** Every file lies whole under its verified name, with the hash the sender gave for it, and the
        journal says so. */
    ghost predicate Sealed()
      reads this
    {
      && sealed && phase == Finalizing && journal.Some? && journal == disk.journal && journal.value.state == J.Finalizing
      && (forall i :: 0 <= i < |journal.value.entries| ==> J.Published(journal.value.entries[i]))
      && Recoverable(sha, manifest.entries, disk)
    }

    /** What finalizing proves of every file. */
    ghost predicate FilesSealed(digests: map<int, Digest>)
      reads this`disk
    {
      forall i: nat :: IsFile(manifest.entries, i) ==>
        && i in disk.verified && i !in disk.parts && i in digests
        && |disk.verified[i]| == manifest.entries[i].size && sha(disk.verified[i]) == digests[i]
    }

    /** The renames, one file at a time, and the one generation that records them all. */
    method Seal(io: Io) returns (r: Reply)
      requires History() && Sealing(sha, manifest.entries, Abs(), 0) && phase == Finalizing && !sealed && journal.Some?
      requires tracker.phase == T.Finalizing
      modifies this
      ensures bytesDone == old(bytesDone)
      ensures Valid() && hashes == old(hashes) && (sealed <==> r.Fine?)
      ensures r.Fine? ==> Sealed() && FilesSealed(hashes) && io.commits == Written && (io.renames || old(AllNamed()))
      ensures r.StreamError? ==> phase == Failed && failure.Some?
      ensures Perfect(io) && old(journal).value.generation < UINT64_MAX ==> r.Fine?
      ensures r.Fine? ==> SameHeld(old(Abs()), Abs()) && old(journal).Some? && journal.value.generation == old(journal).value.generation + 1
      ensures r.Fine? ==> Steady(J.Finalizing, old(points), points)
    {
      hide Rest, Sound, StageInv, Past, Sealing, Recoverable, Owned, FilesSealed, SameHeld, Leftover, Steady, Ended, T.Sane, Entire, Atomic;
      r := RenameAll(io);
      if !r.Fine? {
        return;
      }
      ghost var named, before := Abs(), points;
      r := RecordSealed(io);
      if r.Fine? {
        SteadyTrans(J.Finalizing, old(points), before, points);
        HeldTrans(old(Abs()), named, Abs());
      }
    }

    /** The journal says of every file already that it has its verified name. */
    predicate AllNamed()
      requires journal.Some?
      reads this
    {
      forall i :: 0 <= i < |journal.value.entries| && journal.value.entries[i].id.kind == J.File && journal.value.entries[i].p.Received? ==>
        journal.value.entries[i].p.storage == J.Verified
    }

    /** The renames, one file after the other. */
    method RenameAll(io: Io) returns (r: Reply)
      requires History() && Sealing(sha, manifest.entries, Abs(), 0) && phase == Finalizing && !sealed && journal.Some?
      requires tracker.phase == T.Finalizing
      modifies this
      ensures bytesDone == old(bytesDone) && hashes == old(hashes) && !sealed
      ensures r.Fine? ==>
        && History() && Sealing(sha, manifest.entries, Abs(), |manifest.entries|) && phase == Finalizing && journal == old(journal)
        && SameHeld(old(Abs()), Abs()) && Steady(J.Finalizing, old(points), points)
      ensures !r.Fine? ==> Valid() && phase == Failed && failure == Some(if io.full then DiskFull else FinalizeRenameFailed)
      ensures io.renames ==> r.Fine?
      ensures r.Fine? ==> io.renames || old(AllNamed())
    {
      hide Rest, Sound, StageInv, Past, Sealing, Recoverable, Owned, FilesSealed, SameHeld, Leftover, Steady, Ended, T.Sane, Entire, Atomic;
      HeldSelf(Abs());
      SteadySelf(J.Finalizing, points);
      SealingMatches(sha, manifest.entries, Abs());
      r := Fine;
      var i := 0;
      while i < |manifest.entries|
        invariant 0 <= i <= |manifest.entries| && r.Fine?
        invariant History() && Sealing(sha, manifest.entries, Abs(), i) && phase == Finalizing && !sealed
        invariant hashes == old(hashes) && journal == old(journal) && SameHeld(old(Abs()), Abs()) && bytesDone == old(bytesDone)
        invariant Steady(J.Finalizing, old(points), points)
        invariant !io.renames ==> forall k :: 0 <= k < i && journal.value.entries[k].id.kind == J.File ==> journal.value.entries[k].p.storage == J.Verified
      {
        ghost var s := Abs();
        SealOne(sha, manifest.entries, s, i);
        if manifest.entries[i].kind == J.File {
          assert IsFile(manifest.entries, i);
          if journal.value.entries[i].p.storage != J.Verified {
            if !io.renames {
              r := TerminalFailure(IoCode(io, FinalizeRenameFailed), io);
              return;
            }
            RenameOne(i);
            HeldTrans(old(Abs()), s, Abs());
          }
        }
        i := i + 1;
      }
    }

    method RenameOne(i: nat)
      requires History() && Sealing(sha, manifest.entries, Abs(), i) && phase == Finalizing && journal.Some? && IsFile(manifest.entries, i)
      requires i < |journal.value.entries| && journal.value.entries[i].p.Received? && journal.value.entries[i].p.storage != J.Verified
      modifies this`disk, this`points, this`kept
      ensures History() && Sealing(sha, manifest.entries, Abs(), i + 1) && SameHeld(old(Abs()), Abs())
      ensures forall p :: Steady(J.Finalizing, p, old(points)) ==> Steady(J.Finalizing, p, points)
    {
      hide Rest, Sound, StageInv, Past, Sealing, Recoverable, Owned, FilesSealed, SameHeld, Leftover, Steady, Ended, T.Sane, Entire, Atomic;
      ghost var s := Abs();
      SealOne(sha, manifest.entries, s, i);
      SealingRest(sha, manifest.entries, s.(disk := Renamed(disk, i)), i + 1);
      RenameHeld(s, i);
      ghost var before := points;
      SealingState(sha, manifest.entries, s, i);
      SteadyStep(J.Finalizing, before, Renamed(disk, i));
      AtomicRename(disk, i);
      Persist(Renamed(disk, i));
      forall p | Steady(J.Finalizing, p, before) ensures Steady(J.Finalizing, p, points) {
        SteadyTrans(J.Finalizing, p, before, points);
      }
    }

    method RecordSealed(io: Io) returns (r: Reply)
      requires History() && Sealing(sha, manifest.entries, Abs(), |manifest.entries|) && phase == Finalizing && !sealed && journal.Some?
      modifies this
      ensures bytesDone == old(bytesDone)
      ensures Valid() && hashes == old(hashes) && (sealed <==> r.Fine?)
      ensures r.Fine? ==> Sealed() && FilesSealed(hashes) && io.commits == Written
      ensures r.StreamError? ==> phase == Failed && failure.Some? && (old(failure).Some? ==> failure == old(failure))
      ensures Perfect(io) && old(journal).value.generation < UINT64_MAX ==> r.Fine?
      ensures r.Fine? ==> SameHeld(old(Abs()), Abs()) && old(journal).Some? && journal.value.generation == old(journal).value.generation + 1
      ensures r.Fine? ==> Steady(J.Finalizing, old(points), points)
    {
      hide Rest, Sound, StageInv, Sealing, Recoverable, Owned, J.FinalizeIncoming, J.TransitionFault, Leftover, Ended, Entire, Steady, FilesSealed, Past, SameHeld, Atomic;
      ghost var s := Abs();
      SealingRest(sha, manifest.entries, s, |manifest.entries|);
      SealedEvidence(sha, manifest.entries, s, io.nowNs);
      SealedFiles(s);
      var next := J.FinalizeIncoming(sha([]), journal.value, hashes, io.nowNs);
      if next.Err? {
        return JournalError(next.error);
      }
      var code;
      r, code := StoreSealed(next.value, io);
      if !r.Fine? {
        GiveUpSealing(code);
        return;
      }
      SameFilesHeld(s, Abs());
      sealed := true;
    }

    /** The generation that calls every file verified. */
    method StoreSealed(next: J.Journal, io: Io) returns (r: Reply, code: StageError)
      requires History() && Rest(sha, manifest.entries, Abs()) && Sealing(sha, manifest.entries, Abs(), |manifest.entries|) && phase == Finalizing && journal.Some? && disk.journal == journal
      requires J.TransitionFault(journal.value, next).None? && next.generation == journal.value.generation + 1 && next.state == J.Finalizing
      requires Sound(sha, manifest.entries, WithJournal(disk, next)) && file.None?
      modifies this`disk, this`journal, this`points, this`kept
      ensures History() && Rest(sha, manifest.entries, Abs()) && StageInv(sha, manifest.entries, Abs()) && journal.Some?
      ensures r == (if journal == Some(next) then Fine else StreamError(code))
      ensures r.Fine? ==> disk.journal == journal && Recoverable(sha, manifest.entries, disk)
      ensures disk.parts == old(disk.parts) && disk.verified == old(disk.verified)
      ensures r.Fine? <==> io.commits == Written
      ensures old(FilesSealed(hashes)) ==> FilesSealed(hashes)
      ensures r.Fine? ==> Steady(J.Finalizing, old(points), points)
    {
      hide Rest, Sound, StageInv, Sealing, Recoverable, J.TransitionFault, Leftover, Ended, Entire;
      ghost var s := Abs();
      RestOwned(sha, manifest.entries, s);
      var ok;
      ok, code := CommitJournal(next, io);
      SealedRest(sha, manifest.entries, s, Abs(), next);
      r := if ok then Fine else StreamError(code);
    }

    method GiveUpSealing(code: StageError)
      requires History() && Rest(sha, manifest.entries, Abs()) && phase == Finalizing
      modifies this`phase, this`failure, this`file, this`hashed
      ensures Valid() && phase == Failed && failure == if old(failure).None? then Some(code) else old(failure)
    {
      hide Rest, Sound, StageInv, Past, Leftover;
      ghost var s := Abs();
      phase, failure := Failed, if failure.None? then Some(code) else failure;
      CloseFile();
      PhaseRest(sha, manifest.entries, s, Abs());
    }

    lemma SealedFiles(s: Stage)
      requires Sealing(sha, manifest.entries, s, |manifest.entries|) && s.disk == disk && s.hashes == hashes
      ensures FilesSealed(hashes)
    {
      forall i: nat | IsFile(manifest.entries, i)
        ensures i in disk.verified && i !in disk.parts && i in hashes && |disk.verified[i]| == manifest.entries[i].size && sha(disk.verified[i]) == hashes[i]
      {
        SealedContent(sha, manifest.entries, s, i);
      }
    }

    /** Checks the sender's evidence against what arrived, gives every file its verified name and
        records that in the journal. */
    method Finalize(c: Completion, now: Option<real>, io: Io) returns (r: Reply)
      requires Valid()
      modifies this
      ensures bytesDone == old(bytesDone)
      ensures Valid()
      ensures old(phase) != Receiving ==> r == StreamError(InvalidChunk) && Abs() == old(Abs())
      ensures r.Fine? ==> old(FinalizeReady(c)) && Sealed() && bytesDone == SizeOf(manifest.entries)
      ensures r.Fine? ==> FilesSealed(c.hashes)
      ensures Perfect(io) && old(FinalizeReady(c)) && old(journal).Some? && old(journal).value.generation + 1 < UINT64_MAX ==>
        (r.Fine? <==> old(journal).value.state in {J.Created, J.Transferring, J.Paused, J.WaitingReconnect, J.Verifying, J.Finalizing})
      ensures !r.Fine? ==> sealed == old(sealed)
      ensures r.Fine? ==> SameHeld(old(Abs()), Abs()) && old(journal).Some? && journal.value.generation == old(journal).value.generation + 2
      ensures r.Fine? ==> FilesSealed(hashes)
      ensures r.Fine? ==> Steady(J.Finalizing, old(points), points)
    {
      hide Timed, Entire, Core, Rest, Sound, StageInv, Agrees, Binds, Past, NextState, J.TransitionFault, Recoverable, Owned, Ended, FilesSealed, Sealed, SameHeld, Steady;
      if phase != Receiving {
        return StreamError(InvalidChunk);
      }
      ghost var s := Abs();
      InvIsLive(sha, manifest.entries, s);
      CoreFacts(sha, manifest.entries, s);
      ReceivedSoFar(sha, manifest.entries, s);
      AwaitFinalizing(ClockOf(now, io));
      var fault := CheckCompletion(c);
      if fault.Some? {
        r := TerminalFailure(fault.value, io);
        return;
      }
      AgreedHashes(c);
      r := Publish(io);
      if r.Fine? {
        VouchedSealed(c, s.hashes);
      }
    }

    /** From here on the wait is the one for the publication. */
    method AwaitFinalizing(clock: real)
      requires History() && phase == Receiving
      modifies this`tracker
      ensures History() && !sealed && tracker == T.Entered(timeouts, T.Finalizing, clock)
    {
      hide Past, Entire;
      tracker := T.Entered(timeouts, T.Finalizing, clock);
    }

    /** Everything must have arrived, and the evidence must be of this transfer and match. */
    method CheckCompletion(c: Completion) returns (fault: Option<StageError>)
      requires phase == Receiving && Core(sha, manifest.entries, Abs())
      ensures fault.None? <==> FinalizeReady(c)
      ensures fault.Some? ==> fault.value != JournalCommitFailed
    {
      hide Core, Agrees, Binds;
      var bound := CheckBinding(c);
      if nextEntry != |manifest.entries| || file.Some? || !bound {
        return Some(InvalidChunk);
      }
      fault := CheckEvidence(c);
    }

    /** The evidence matched: the journal turns to finalizing, then every file gets its verified name.
        When the journal may not turn to finalizing the call fails, but the stage stays finalizing. */
    method Publish(io: Io) returns (r: Reply)
      requires History() && Core(sha, manifest.entries, Abs()) && nextEntry == |manifest.entries| && file.None? && journal.Some? && !sealed
      requires tracker.phase == T.Finalizing
      modifies this
      ensures bytesDone == old(bytesDone)
      ensures Valid() && hashes == old(hashes) && (sealed <==> r.Fine?)
      ensures r.Fine? ==> Sealed() && FilesSealed(hashes)
      ensures Perfect(io) && old(journal).value.generation + 1 < UINT64_MAX ==>
        (r.Fine? <==> old(journal).value.state in {J.Created, J.Transferring, J.Paused, J.WaitingReconnect, J.Verifying, J.Finalizing})
      ensures r.Fine? ==> SameHeld(old(Abs()), Abs()) && old(journal).Some? && journal.value.generation == old(journal).value.generation + 2
      ensures r.Fine? ==> Steady(J.Finalizing, old(points), points)
    {
      hide Core, Rest, Sound, StageInv, Past, Sealing, Recoverable, FilesSealed, NextState, J.TransitionFault, Steady;
      ghost var s := Abs();
      CoreFacts(sha, manifest.entries, s);
      StartSealing(sha, manifest.entries, s, io.nowNs);
      phase := Finalizing;
      PhaseRest(sha, manifest.entries, s, Abs());
      r := SetJournalState(J.Finalizing, io);
      if r.Fine? {
        StateIs(sha, s.journal.value, J.Finalizing, io.nowNs);
        ghost var before := points;
        Announced(J.Finalizing, old(points), before, disk);
        r := Seal(io);
        if r.Fine? {
          SteadyTrans(J.Finalizing, old(points), before, points);
        }
      } else {
        RestIsInv(sha, manifest.entries, Abs());
      }
    }

    lemma VouchedSealed(c: Completion, vouched: map<int, Digest>)
      requires FilesSealed(vouched) && Binds(c)
      requires forall i :: IsFile(manifest.entries, i) ==> i in vouched && i in c.hashes && vouched[i] == c.hashes[i]
      ensures FilesSealed(c.hashes)
    {
    }

    lemma AgreedHashes(c: Completion)
      requires Binds(c) && Agrees(c)
      ensures forall i :: IsFile(manifest.entries, i) ==> i in hashes && i in c.hashes && hashes[i] == c.hashes[i]
    {
    }

    // -------------------------------------------------------------- publication and its recovery

    /** The published item is deliverable: the journal completes, and the stage directory goes. */
    method CompletePublication(receiptHeld: bool, io: Io) returns (r: Reply)
      requires Valid() && (sealed && phase == Finalizing ==> Sealed())
      modifies this
      ensures bytesDone == old(bytesDone)
      ensures Valid()
      ensures r.Fine? ==> old(phase == Finalizing && sealed && receiptHeld) && phase == Completed && Ended(disk) && disk == Disk(false, map[], map[], disk.journal)
      ensures !r.Fine? ==> phase == old(phase)
      ensures Perfect(io) && old(sealed && phase == Finalizing) && receiptHeld && old(journal).Some? && old(journal).value.generation < UINT64_MAX ==> r.Fine?
      ensures old(points) <= points && forall i :: |old(points)| <= i < |points| ==> Completing(old(disk), points[i])
      ensures r.Fine? ==> |old(points)| < |points| && points[|old(points)|] == old(disk).(journal := disk.journal)
    {
      hide Core, Rest, Sound, StageInv, Past, Recoverable, NextState, J.TransitionFault, Ended, Timed, T.Entered, Leftover, Removing, Completing;
      if phase != Finalizing || !sealed || !receiptHeld {
        return StreamError(PublicationIncomplete);
      }
      ghost var s := Abs();
      InvRest(sha, manifest.entries, s);
      CompletingAllowed(sha, manifest.entries, s, io.nowNs);
      r := SetJournalState(J.Completed, io);
      CompletedNext(sha, s.disk, io.nowNs);
      if !r.Fine? {
        RestIsInv(sha, manifest.entries, Abs());
        return;
      }
      ghost var done := disk;
      Finish(io);
      CompletingOn(s.disk, done);
    }

    /** The journal is completed: so is the stage, and its directory goes. */
    method Finish(io: Io)
      requires History() && Rest(sha, manifest.entries, Abs()) && phase == Finalizing && journal.Some? && journal == disk.journal
      requires journal.value.state == J.Completed
      modifies this`phase, this`tracker, this`file, this`hashed, this`disk, this`points, this`kept
      ensures Valid() && phase == Completed && Ended(disk) && disk == Disk(false, map[], map[], old(disk).journal)
      ensures old(points) <= points && forall i :: |old(points)| <= i < |points| ==> Removing(old(disk), points[i])
    {
      hide Core, Rest, Sound, StageInv, Past, Recoverable, Ended, Timed, T.Entered, Leftover, Removing;
      EnterPhase(Completed, T.Completed, io.clock);
      EndedRest(sha, manifest.entries, Abs(), Disk(false, map[], map[], disk.journal));
      RemoveTree(true);
    }

    /** Rebuilds the sender's evidence from the journal of a stage that was finalizing. */
    method RecoverFinalization(io: Io) returns (r: Reply)
      requires Valid()
      modifies this
      ensures bytesDone == old(bytesDone)
      ensures Valid()
      ensures r.Fine? ==> Sealed() && old(journal).Some? && FilesSealed(Receipts(old(journal).value.entries))
      ensures (Perfect(io) && old(phase) == Receiving && old(journal).Some? && old(journal).value.state == J.Finalizing
               && old(journal).value.generation + 1 < UINT64_MAX) ==> r.Fine?
      ensures r.Fine? ==> SameHeld(old(Abs()), Abs()) && FilesSealed(hashes) && journal.value.generation == old(journal).value.generation + 2
      ensures r.Fine? ==> Steady(J.Finalizing, old(points), points)
    {
      hide Core, Rest, Sound, StageInv, Past, Recoverable, Live, Sealed, FilesSealed, Steady;
      if phase == Receiving && journal.Some? && journal.value.state == J.Finalizing {
        FinalizingComplete(sha, manifest.entries, Abs());
      }
      if journal.None? || journal.value.state != J.Finalizing || !AllComplete(journal.value.entries) {
        return StreamError(PublicationIncomplete);
      }
      var prints := map i | 0 <= i < |manifest.entries| :: manifest.entries[i].fingerprint;
      r := Finalize(Completion(transfer, manifest.digest, SizeOf(manifest.entries), Receipts(journal.value.entries), prints), None, io);
    }

    // -------------------------------------------------------------- pausing, cancelling, timing out

    /** A pause was stored by a write that reported failure: the stage stays live, but its journal is no
        longer the stored one, so it can store nothing more. Nothing is lost: what is stored has the same
        entries, can be reopened, and is what a pause would have stored. */
    ghost predicate Outdated()
      reads this
    {
      && History() && Rest(sha, manifest.entries, Abs()) && phase == Receiving && Overtaken(journal, disk)
      && Recoverable(sha, manifest.entries, disk)
    }

    /** Checkpoints and keeps everything. With an open file to which nothing was written there is
        nothing a checkpoint could record, and its journal error escapes with the stage as it was. */
    method Pause(disconnected: bool, now: Option<real>, io: Io) returns (r: Reply)
      requires Valid() && journal.Some?
      modifies this
      ensures bytesDone == old(bytesDone)
      ensures Valid() || (Outdated() && io.commits == FailedAfter)
      ensures old(phase) !in {Receiving, Failed} ==> r == StreamError(InvalidChunk) && Abs() == old(Abs()) && tracker == old(tracker)
      ensures disk.parts == old(disk.parts) && disk.verified == old(disk.verified)
      ensures r.Fine? ==>
        && disk.journal == journal && journal.Some? && journal.value.state == (if disconnected then J.WaitingReconnect else J.Paused)
        && (old(file).Some? ==> old(nextEntry) < |journal.value.entries| && journal.value.entries[old(nextEntry)].p.durable == old(offset))
      ensures !r.Fine? ==> phase == old(phase) || phase == Failed
      ensures r.Fine? ==>
        && phase == (if disconnected then WaitingReconnect else Paused) && file.None? && SameHeld(old(Abs()), Abs())
        && tracker == T.Entered(timeouts, if disconnected then T.WaitingReconnect else T.Paused, ClockOf(now, io))
      ensures Perfect(io) && old(phase) == Receiving && old(journal).value.generation + 1 < UINT64_MAX ==>
        (r.Fine? <==> (old(file).Some? ==> old(hashed) != []))
      ensures Perfect(io) && old(phase) == Receiving && old(file).Some? && old(hashed) == [] ==>
        r.JournalError? && Abs() == old(Abs()) && tracker == old(tracker)
    {
      hide Core, Rest, Sound, StageInv, Live, Waiting, Counted, CanUpdate, Past, Recoverable, SameHeld, Timed;
      if phase != Receiving && phase != Failed {
        return StreamError(InvalidChunk);
      }
      ghost var s := Abs();
      HeldSelf(s);
      InvRest(sha, manifest.entries, s);
      if phase == Receiving {
        PauseFacts(sha, manifest.entries, s);
      }
      if file.Some? {
        var done;
        done, r := Checkpoint(None, true, io);
        if !r.Fine? {
          return;
        }
      }
      ghost var saved := Abs();
      r := Leave(disconnected, now, io);
      if r.Fine? {
        HeldTrans(s, saved, Abs());
      }
    }

    method Leave(disconnected: bool, now: Option<real>, io: Io) returns (r: Reply)
      requires Valid() && journal.Some? && phase in {Receiving, Failed}
      modifies this`disk, this`journal, this`points, this`kept, this`phase, this`tracker, this`file, this`hashed
      ensures Valid() || (Outdated() && io.commits == FailedAfter)
      ensures disk.parts == old(disk.parts) && disk.verified == old(disk.verified)
      ensures r.Fine? ==>
        && disk.journal == journal && journal.Some? && journal.value.state == (if disconnected then J.WaitingReconnect else J.Paused) && journal.value.entries == old(journal).value.entries
      ensures !r.Fine? ==> phase == old(phase) && tracker == old(tracker) && file == old(file)
      ensures r.Fine? ==>
        && phase == (if disconnected then WaitingReconnect else Paused) && file.None? && SameHeld(old(Abs()), Abs())
        && tracker == T.Entered(timeouts, if disconnected then T.WaitingReconnect else T.Paused, ClockOf(now, io))
      ensures Perfect(io) && old(phase) == Receiving && old(journal).value.generation < UINT64_MAX ==> r.Fine?
    {
      hide Rest, StageInv, Past, Timed, SameHeld, T.Entered, ClockOf, Overtaken, Recoverable;
      ghost var s := Abs();
      r := StorePause(if disconnected then J.WaitingReconnect else J.Paused, io);
      if !r.Fine? {
        return;
      }
      LeaveHeld(sha, manifest.entries, s, Abs());
      if disconnected {
        EnterPhase(WaitingReconnect, T.WaitingReconnect, ClockOf(now, io));
      } else {
        EnterPhase(Paused, T.Paused, ClockOf(now, io));
      }
    }

    /** The journal becomes paused, or the stage stays as it is; the write that reports failure may have
        stored the pause all the same. */
    method StorePause(state: J.State, io: Io) returns (r: Reply)
      requires Valid() && journal.Some? && phase in {Receiving, Failed} && state in {J.Paused, J.WaitingReconnect}
      modifies this`disk, this`journal, this`points, this`kept
      ensures History() && Rest(sha, manifest.entries, Abs())
      ensures disk.parts == old(disk.parts) && disk.verified == old(disk.verified)
      ensures r.Fine? ==> journal.Some? && disk.journal == journal && journal.value.state == state && journal.value.entries == old(journal).value.entries
      ensures !r.Fine? ==> Valid() || (Outdated() && io.commits == FailedAfter)
      ensures Perfect(io) && phase == Receiving && old(journal).value.generation < UINT64_MAX ==> r.Fine?
    {
      hide Core, Rest, Sound, StageInv, Live, Past, Recoverable, NextState, J.TransitionFault, Timed;
      ghost var s := Abs();
      InvRest(sha, manifest.entries, s);
      if phase == Receiving {
        PauseAllowed(sha, manifest.entries, s, state, io.nowNs);
      }
      r := SetJournalState(state, io);
      if !r.Fine? {
        if disk != s.disk && phase == Receiving {
          StaleJournal(sha, manifest.entries, s, Abs(), state, io.nowNs);
        } else {
          InvFrame(sha, manifest.entries, s, Abs());
        }
      }
    }

    /** Cancels in any live phase. The checkpoint is tried but not needed, and so is the journal's
        `cancelled` state; only a journal error keeps the stage from being cancelled. */
    method Cancel(now: Option<real>, io: Io) returns (performed: bool, r: Reply)
      requires Valid() && journal.Some?
      modifies this
      ensures bytesDone == old(bytesDone)
      ensures Valid() || (r.JournalError? && old(journal).value.generation + 1 >= UINT64_MAX)
      ensures old(phase) in {Completed, Cancelled, Purged} ==> !performed && r.Fine? && Abs() == old(Abs())
      ensures old(phase) !in {Completed, Cancelled, Purged} && r.Fine? ==>
        performed && phase == Cancelled && !sealed && tracker == T.Entered(timeouts, T.Cancelled, ClockOf(now, io))
      ensures r.Fine? || r.JournalError?
      ensures Perfect(io) && old(phase) == Receiving && old(journal).value.generation + 1 < UINT64_MAX ==>
        (r.Fine? <==> (old(file).Some? ==> old(hashed) != []))
      ensures Perfect(io) && old(phase) == Receiving && old(file).Some? && old(hashed) == [] ==> r.JournalError? && Abs() == old(Abs())
      ensures old(file).None? && io.commits == FailedBefore ==> disk == old(disk)
      ensures old(phase) == Receiving && old(file).None? && old(journal).value.generation < UINT64_MAX ==> r.Fine?
      ensures r.Fine? ==> journal.Some?
      ensures disk.parts == old(disk.parts) && disk.verified == old(disk.verified)
      ensures (Perfect(io) && performed
               && (old(phase) == Receiving || old(disk.journal == journal && !(journal.value.state in {J.Completed, J.Cancelled, J.Purging})))) ==>
        && disk.journal == journal && journal.Some? && journal.value.state == J.Cancelled
        && (old(file).Some? ==> old(nextEntry) < |journal.value.entries| && journal.value.entries[old(nextEntry)].p.durable == old(offset))
    {
      hide Core, Rest, Sound, StageInv, Live, Waiting, Counted, CanUpdate, Past, SameHeld, Timed, T.Entered, ClockOf;
      if phase in {Completed, Cancelled, Purged} {
        return false, Fine;
      }
      ghost var s := Abs();
      InvRest(sha, manifest.entries, s);
      if phase == Receiving {
        PauseFacts(sha, manifest.entries, s);
      }
      r := Fine;
      if file.Some? {
        var done;
        done, r := Checkpoint(None, true, io);
        if r.JournalError? {
          return false, r;
        }
      }
      InvRest(sha, manifest.entries, Abs());
      if phase == Receiving {
        InvIsLive(sha, manifest.entries, Abs());
        CoreFacts(sha, manifest.entries, Abs());
      }
      performed, r := DoCancel(now, io);
    }

    method DoCancel(now: Option<real>, io: Io) returns (performed: bool, r: Reply)
      requires Valid() && journal.Some? && phase != Purged
      modifies this
      ensures bytesDone == old(bytesDone)
      ensures r.Fine? ==> Valid() && performed && phase == Cancelled && !sealed && tracker == T.Entered(timeouts, T.Cancelled, ClockOf(now, io))
      ensures !r.Fine? ==> r.JournalError? && !performed && (old(phase) == Receiving ==> old(journal).value.generation >= UINT64_MAX)
      ensures !r.Fine? && old(file).None? ==> Valid()
      ensures old(file).None? && io.commits == FailedBefore ==> disk == old(disk)
      ensures r.Fine? ==> journal.Some?
      ensures disk.parts == old(disk.parts) && disk.verified == old(disk.verified)
      ensures (r.Fine? && io.commits == Written
               && old(disk.journal == journal && !(journal.value.state in {J.Completed, J.Cancelled, J.Purging}))) ==>
        disk.journal == journal && journal.value.state == J.Cancelled && journal.value.entries == old(journal).value.entries
    {
      hide Rest, Sound, StageInv, Past, T.Entered, ClockOf, NextState, Leftover, Ended, T.Sane, Live;
      DropResult();
      r := MarkCancelled(old(Abs()), io);
      if r.JournalError? {
        return false, r;
      }
      EnterPhase(Cancelled, T.Cancelled, ClockOf(now, io));
      return true, Fine;
    }

    /** The journal becomes cancelled if that can be stored at all. */
    method MarkCancelled(ghost s: Stage, io: Io) returns (r: Reply)
      requires History() && Rest(sha, manifest.entries, Abs()) && journal.Some? && StageInv(sha, manifest.entries, s)
      requires Abs() == s.(file := None, hashed := [])
      modifies this`disk, this`journal, this`points, this`kept
      ensures History() && Rest(sha, manifest.entries, Abs()) && journal.Some?
      ensures r.JournalError? ==> (s.phase == Receiving ==> s.journal.value.generation >= UINT64_MAX) && (s.file.None? ==> Valid())
      ensures io.commits == FailedBefore ==> disk == old(disk)
      ensures disk.parts == old(disk.parts) && disk.verified == old(disk.verified)
      ensures (io.commits == Written && !r.JournalError?
               && old(disk.journal == journal && !(journal.value.state in {J.Completed, J.Cancelled, J.Purging}))) ==>
        disk.journal == journal && journal.value.state == J.Cancelled && journal.value.entries == old(journal).value.entries
    {
      hide Rest, Sound, StageInv, Past, NextState, J.TransitionFault, Leftover, Ended, Recoverable, T.Sane;
      if phase == Receiving {
        OnlyOverflow(sha, manifest.entries, s, J.Cancelled, io.nowNs);
      }
      StopAllowed(sha, manifest.entries, Abs(), J.Cancelled, io.nowNs);
      r := SetJournalState(J.Cancelled, io);
      if r.JournalError? && s.file.None? {
        ClosedTwice(sha, manifest.entries, s, Abs());
      }
    }

    method DropResult()
      requires Valid()
      modifies this`file, this`hashed, this`sealed
      ensures History() && Rest(sha, manifest.entries, Abs()) && !sealed && file.None? && hashed == []
    {
      hide Rest, Sound, StageInv, Past, Leftover;
      ghost var s := Abs();
      InvRest(sha, manifest.entries, s);
      CloseFile();
      sealed := false;
      PhaseRest(sha, manifest.entries, s, Abs());
    }

    /** The stored journal is the one in memory and may turn to purging. */
    ghost predicate MayPurge(io: Io)
      requires journal.Some?
      reads this`disk, this`journal
    {
      && disk.journal == journal && NextState(sha, journal.value, J.Purging, io.nowNs).Ok?
      && J.TransitionFault(journal.value, NextState(sha, journal.value, J.Purging, io.nowNs).value).None?
    }

    /** Deletes the stage and its journal: the journal says `purging` before anything goes. It succeeds
        exactly when there is nothing stored any more or the journal could say so. */
    method Purge(io: Io) returns (r: Reply)
      requires History() && Rest(sha, manifest.entries, Abs()) && journal.Some?
      modifies this`disk, this`journal, this`points, this`kept, this`phase, this`tracker, this`file, this`hashed
      ensures History() && Rest(sha, manifest.entries, Abs()) && file.None?
      ensures r.Fine? ==> Valid() && phase == Purged && journal.None? && tracker == T.Entered(timeouts, T.Purged, io.clock)
      ensures r.Fine? ==> disk.journal.None? && (old(disk.journal).Some? ==> disk == Disk(false, map[], map[], None))
      ensures !r.Fine? ==> r.StreamError? && phase == old(phase) && tracker == old(tracker) && journal == old(journal)
      ensures r.Fine? ==> kept == |points|
      ensures io.commits == FailedBefore && old(disk).journal.Some? ==> !r.Fine? && disk == old(disk)
      ensures r.Fine? <==> old(disk.journal.None? || (disk.present && MayPurge(io))) && (io.commits == Written || old(disk.journal.None?))
      ensures (Perfect(io) && old(disk.journal == journal && disk.present && Recoverable(sha, manifest.entries, disk))
               && old(journal).value.generation < UINT64_MAX) ==> r.Fine?
    {
      hide Rest, Sound, StageInv, Past, Timed, T.Entered, NextState, J.TransitionFault, Recoverable, Ended;
      ghost var s := Abs();
      CloseFile();
      PhaseRest(sha, manifest.entries, s, Abs());
      if disk.journal.None? {
        Release(io);
        return Fine;
      }
      if !disk.present {
        return StreamError(CorruptPartial);
      }
      r := MarkPurging(io);
      if !r.Fine? {
        return if r.JournalError? then StreamError(JournalPurgeFailed) else r;
      }
      RemoveMarked();
      Release(io);
    }

    method MarkPurging(io: Io) returns (r: Reply)
      requires History() && Rest(sha, manifest.entries, Abs()) && journal.Some? && disk.journal.Some? && disk.present
      modifies this`disk, this`journal, this`points, this`kept
      ensures History() && Rest(sha, manifest.entries, Abs()) && disk.present && journal.Some?
      ensures r.Fine? ==> disk.journal == journal && journal.value.state == J.Purging
      ensures !r.Fine? ==> journal == old(journal) && (io.commits == FailedBefore ==> disk == old(disk))
      ensures r.Fine? <==> old(MayPurge(io)) && io.commits == Written
      ensures Perfect(io) && old(disk.journal == journal && Recoverable(sha, manifest.entries, disk)) && old(journal).value.generation < UINT64_MAX ==> r.Fine?
    {
      hide Rest, Sound, Past, Timed, NextState, J.TransitionFault, Recoverable;
      PurgingAllowed(sha, manifest.entries, Abs(), io.nowNs);
      r := SetJournalState(J.Purging, io);
    }

    /** The directory of a stage marked as purging goes, and then its journal. */
    method RemoveMarked()
      requires History() && Rest(sha, manifest.entries, Abs()) && journal.Some? && disk.journal == journal && journal.value.state == J.Purging
      modifies this`disk, this`points, this`kept
      ensures History() && Rest(sha, manifest.entries, Abs()) && kept == |points| && disk == Disk(false, map[], map[], None)
    {
      hide Rest, Sound, Past, Timed, Atomic;
      GoneRest(sha, manifest.entries, Abs());
      RemoveTree(true);
      AtomicJournal(disk, None);
      Persist(Disk(false, map[], map[], None));
    }

    /** Forgets the journal of a stage that is over. */
    method Release(io: Io)
      requires History() && Rest(sha, manifest.entries, Abs()) && journal.Some?
      modifies this`journal, this`phase, this`tracker, this`file, this`hashed
      ensures Valid() && History() && Rest(sha, manifest.entries, Abs()) && phase == Purged && journal.None? && file.None?
      ensures tracker == T.Entered(timeouts, T.Purged, io.clock)
    {
      hide Core, Rest, Sound, StageInv, Past, Timed, T.Entered;
      ghost var s := Abs();
      journal := None;
      ForgottenRest(sha, manifest.entries, s, Abs());
      EnterPhase(Purged, T.Purged, io.clock);
    }

    /** A timeout's purge. When it fails, the stage directory goes all the same, whatever the journal
        says, and the stage ends purged with the failure on record. */
    method PurgeOrRelease(io: Io)
      requires History() && Rest(sha, manifest.entries, Abs()) && journal.Some?
      modifies this
      ensures bytesDone == old(bytesDone)
      ensures Valid() && phase == Purged && journal.None? && file.None? && tracker == T.Entered(timeouts, T.Purged, io.clock)
      ensures kept < |points| ==> failure.Some? && disk == Disk(false, map[], map[], disk.journal)
      ensures io.commits == FailedBefore && old(disk).journal.Some? ==> kept < |points| && disk.journal == old(disk).journal
      ensures kept == |points| ==> disk.journal.None?
      ensures old(disk).journal.Some? ==> disk.parts == map[] && disk.verified == map[]
    {
      hide Core, Rest, Sound, StageInv, Past, Timed, T.Entered, Owned;
      var r := Purge(io);
      if !r.Fine? {
        Abandon(r.code, io);
      }
    }

    method Abandon(code: StageError, io: Io)
      requires History() && Rest(sha, manifest.entries, Abs()) && journal.Some?
      modifies this
      ensures bytesDone == old(bytesDone)
      ensures Valid() && phase == Purged && journal.None? && file.None? && tracker == T.Entered(timeouts, T.Purged, io.clock)
      ensures kept < |points| && failure.Some? && disk == Disk(false, map[], map[], old(disk).journal)
    {
      hide Core, Rest, Sound, StageInv, Past, Timed, T.Entered, Owned, Leftover, Ended;
      RestLeaves(sha, manifest.entries, Abs());
      failure := Some(code);
      RemoveTree(false);
      journal := None;
      RemovedRest(sha, manifest.entries, Abs());
      EnterPhase(Purged, T.Purged, io.clock);
    }

    /** The peer acknowledged the cancel: everything goes now, exactly when a purge succeeds. Otherwise the
        stage stays cancelled and the final-acknowledgement timeout purges it. */
    method AcknowledgeCancel(io: Io) returns (done: bool, r: Reply)
      requires Valid()
      modifies this`disk, this`journal, this`points, this`kept, this`phase, this`tracker, this`file, this`hashed
      ensures Valid() && (done ==> old(phase) == Cancelled)
      ensures old(phase) != Cancelled || old(journal).None? ==> (done <==> old(phase) == Cancelled) && r.Fine? && Abs() == old(Abs())
      ensures old(phase) == Cancelled && old(journal).Some? ==>
        (done <==> old(disk.journal.None? || (disk.present && MayPurge(io))) && (io.commits == Written || old(disk.journal.None?)))
      ensures done && old(journal).Some? ==>
        && phase == Purged && journal.None? && disk.journal.None?
        && (old(disk.journal).Some? ==> disk == Disk(false, map[], map[], None))
      ensures !done && old(phase) == Cancelled ==> r.StreamError? && phase == Cancelled && journal == old(journal) && tracker == old(tracker)
    {
      hide Core, Rest, Sound, StageInv, Past, Timed, T.Entered, MayPurge;
      if phase != Cancelled {
        return false, Fine;
      }
      if journal.None? {
        return true, Fine;
      }
      InvRest(sha, manifest.entries, Abs());
      r := Purge(io);
      if !r.Fine? {
        RestIsInv(sha, manifest.entries, Abs());
      }
      done := r.Fine?;
    }

    /** An open file to which nothing was written: reopening leaves one, and so does an empty file whose
        manifest names another hash than that of no bytes. */
    predicate ZeroOpen()
      reads this
    {
      phase == Receiving && tracker.phase == T.Receiving && file.Some? && hashed == []
    }

    /** While receiving, two more journal generations must fit: a checkpoint and the pause. */
    predicate RoomToPause()
      reads this
    {
      tracker.phase == T.Receiving && journal.Some? ==> journal.value.generation + 1 < UINT64_MAX
    }

    /** Applies the timeout of the present wait when it is due. */
    method CheckTimeouts(now: real, io: Io) returns (fired: Option<T.TimeoutName>, r: Reply)
      requires Valid() && (tracker.phase == T.Cancelled ==> journal.Some?)
      modifies this
      ensures bytesDone == old(bytesDone)
      ensures Valid() || (Outdated() && io.commits == FailedAfter)
      ensures old(tracker).phase != T.Receiving ==> !r.StreamError?
      ensures fired == T.Checked(old(tracker), now).1
      ensures fired.None? ==> Abs() == old(Abs()) && tracker == old(tracker) && r.Fine?
      ensures Perfect(io) && fired.Some? && !old(ZeroOpen()) && old(RoomToPause()) ==>
        && (r.Fine? || old(tracker).phase in {T.Paused, T.WaitingReconnect}) && T.StageWait(old(tracker).phase)
        && tracker.phase == T.AfterTimeout(old(tracker).phase) && tracker.fired.None? && file.None?
      ensures old(tracker).phase in {T.Paused, T.WaitingReconnect} && fired.Some? ==>
        && phase == Failed && failure == Some(ReconnectExpired) && disk.parts == old(disk.parts) && disk.verified == old(disk.verified)
        && ((io.commits == Written && r.Fine?
             && old(journal.Some? && disk.journal == journal && !(journal.value.state in {J.Completed, J.Cancelled, J.Purging}))) ==>
              disk.journal == journal && journal.Some? && journal.value.state == J.Failed)
      ensures old(tracker).phase !in {T.Preflight, T.Receiving, T.Paused, T.WaitingReconnect, T.Cancelled} && fired.Some? ==>
        phase == Failed && failure == Some(FinalAckExpired) && disk == old(disk) && journal == old(journal)
      ensures old(tracker).phase in {T.Preflight, T.Cancelled} && fired.Some? ==>
        phase == Purged && journal.None? && (old(disk).journal.Some? ==> disk.parts == map[] && disk.verified == map[])
      ensures old(tracker).phase == T.Receiving && fired.Some? && r.Fine? ==>
        && phase == Paused && disk.journal == journal && journal.Some? && journal.value.state == J.Paused
        && disk.parts == old(disk.parts) && disk.verified == old(disk.verified)
      ensures Perfect(io) && fired.Some? && old(ZeroOpen()) ==>
        r.JournalError? && Abs() == old(Abs()) && tracker == old(tracker).(fired := Some(T.NoProgress))
      ensures old(tracker).phase == T.Cancelled && fired.Some? && io.commits == FailedBefore && old(disk).journal.Some? ==>
        && phase == Purged && failure.Some? && kept < |points| && disk == Disk(false, map[], map[], old(disk).journal)
    {
      hide Core, Rest, Sound, StageInv, Past, Live, SameHeld, ClockOf, Recoverable, Leftover, Ended, Owned, NextState, Overtaken, CanUpdate, Entire;
      var checked := T.Checked(tracker, now);
      fired, r := checked.1, Fine;
      if fired.Some? {
        tracker := checked.0;
        r := Expire(now, io);
      }
    }

    /** The effect of the present wait's timeout, which has just fired. */
    method Expire(now: real, io: Io) returns (r: Reply)
      requires Valid() && T.StageWait(tracker.phase) && T.Bounded(tracker.phase) && (tracker.phase == T.Cancelled ==> journal.Some?)
      modifies this
      ensures bytesDone == old(bytesDone)
      ensures Valid() || (Outdated() && io.commits == FailedAfter)
      ensures old(tracker).phase != T.Receiving ==> !r.StreamError?
      ensures Perfect(io) && !old(ZeroOpen()) && old(RoomToPause()) ==>
        && (r.Fine? || old(tracker).phase in {T.Paused, T.WaitingReconnect})
        && tracker.phase == T.AfterTimeout(old(tracker).phase) && tracker.fired.None? && file.None?
      ensures old(tracker).phase in {T.Paused, T.WaitingReconnect} ==>
        && phase == Failed && failure == Some(ReconnectExpired) && disk.parts == old(disk.parts) && disk.verified == old(disk.verified)
        && ((io.commits == Written && r.Fine?
             && old(journal.Some? && disk.journal == journal && !(journal.value.state in {J.Completed, J.Cancelled, J.Purging}))) ==>
              disk.journal == journal && journal.Some? && journal.value.state == J.Failed)
      ensures old(tracker).phase !in {T.Preflight, T.Receiving, T.Paused, T.WaitingReconnect, T.Cancelled} ==>
        phase == Failed && failure == Some(FinalAckExpired) && disk == old(disk) && journal == old(journal)
      ensures old(tracker).phase in {T.Preflight, T.Cancelled} ==>
        phase == Purged && journal.None? && (old(disk).journal.Some? ==> disk.parts == map[] && disk.verified == map[])
      ensures old(tracker).phase == T.Receiving && r.Fine? ==>
        && phase == Paused && disk.journal == journal && journal.Some? && journal.value.state == J.Paused
        && disk.parts == old(disk.parts) && disk.verified == old(disk.verified)
      ensures Perfect(io) && old(ZeroOpen()) ==> r.JournalError? && Abs() == old(Abs()) && tracker == old(tracker)
      ensures old(tracker).phase == T.Cancelled && io.commits == FailedBefore && old(disk).journal.Some? ==>
        && phase == Purged && failure.Some? && kept < |points| && disk == Disk(false, map[], map[], old(disk).journal)
    {
      hide Valid, History, Timed, Rest, StageInv, ClockOf, Outdated, T.Sane;
      ValidParts();
      r := Fine;
      if tracker.phase == T.Cancelled || tracker.phase == T.Preflight {
        PurgeOrRelease(io);
      } else if tracker.phase == T.Receiving {
        r := PauseSilent(now, io);
      } else if tracker.phase == T.Paused || tracker.phase == T.WaitingReconnect {
        r := TerminalFailure(ReconnectExpired, io);
        if r.StreamError? {
          r := Fine;
        }
      } else {
        FinalAckLapses(now);
      }
    }

    lemma ValidParts()
      requires Valid()
      ensures History() && Rest(sha, manifest.entries, Abs()) && Timed() && (phase == Receiving ==> journal.Some?)
      ensures tracker.phase in {T.Preflight, T.Receiving} ==> phase == Receiving
      ensures phase == Purged <==> tracker.phase == T.Purged
      ensures T.StageWait(tracker.phase) && (T.Bounded(tracker.phase) ==> tracker.deadline.Some?)
    {
      hide Rest, Past;
      InvRest(sha, manifest.entries, Abs());
      if phase == Receiving {
        PauseFacts(sha, manifest.entries, Abs());
      }
    }

    /** No acknowledgement of the published transfer came in time. */
    method FinalAckLapses(now: real)
      requires History() && Rest(sha, manifest.entries, Abs()) && phase != Purged
      modifies this`failure, this`phase, this`tracker, this`file, this`hashed
      ensures Valid() && phase == Failed && failure == Some(FinalAckExpired) && file.None? && tracker == T.Entered(timeouts, T.Failed, now)
    {
      hide Rest, Past, StageInv;
      failure := Some(FinalAckExpired);
      EnterPhase(Failed, T.Failed, now);
    }

    /** Silence while receiving is a pause. */
    method PauseSilent(now: real, io: Io) returns (r: Reply)
      requires Valid() && tracker.phase == T.Receiving
      modifies this
      ensures bytesDone == old(bytesDone)
      ensures Valid() || (Outdated() && io.commits == FailedAfter)
      ensures Perfect(io) && !old(ZeroOpen()) && old(RoomToPause()) ==>
        r.Fine? && tracker.phase == T.Paused && tracker.fired.None? && file.None?
      ensures r.Fine? ==>
        && phase == Paused && disk.journal == journal && journal.Some? && journal.value.state == J.Paused
        && disk.parts == old(disk.parts) && disk.verified == old(disk.verified)
      ensures Perfect(io) && old(ZeroOpen()) ==> r.JournalError? && Abs() == old(Abs()) && tracker == old(tracker)
    {
      hide Core, Rest, Sound, StageInv, Past, SameHeld, ClockOf, Recoverable, Ended, Owned, Overtaken, CanUpdate;
      PauseFacts(sha, manifest.entries, Abs());
      r := Pause(false, Some(now), io);
    }

    /** Lets a stage that hears nothing more run out: each wait ends when its deadline comes. */
    method RunOut(io: Io) returns (firings: nat)
      requires Valid() && Perfect(io) && tracker.fired.None? && !ZeroOpen() && (tracker.phase == T.Cancelled ==> journal.Some?)
      requires RoomToPause()
      modifies this
      ensures bytesDone == old(bytesDone)
      ensures Valid() && !T.Bounded(tracker.phase)
      ensures firings == T.Rank(old(tracker).phase) <= 2
    {
      hide StageInv, Past, SameHeld, Valid, Timed, Outdated, Core, Rest, Recoverable, Leftover;
      firings := 0;
      while T.Bounded(tracker.phase)
        invariant Valid() && tracker.fired.None? && !ZeroOpen() && (tracker.phase == T.Cancelled ==> journal.Some?)
        invariant firings + T.Rank(tracker.phase) == T.Rank(old(tracker).phase) <= 2
        invariant RoomToPause() && bytesDone == old(bytesDone)
        decreases T.Rank(tracker.phase)
      {
        ValidParts();
        T.FiresWhenDue(timeouts, tracker, tracker.deadline.value);
        var fired, r := CheckTimeouts(tracker.deadline.value, io);
        firings := firings + 1;
      }
    }
  }
}
