/** Whole runs of a transfer: a stage that crashed anywhere is reopened, the sender restarts from what
    is durable, and what ends up published is the source. */
module StageRuns {
  import opened Common
  import opened Staging
  import opened StageState
  import opened IncomingStage
  import opened Reopening
  import opened ResumePlans
  import opened SenderStream
  import J = ResumeJournal
  import T = TransferControl

  ghost predicate Injective(sha: Content -> Digest) {
    forall a, b {:trigger sha(a), sha(b)} :: sha(a) == sha(b) ==> a == b
  }

  /** A persistent state a stage ever went through, with whatever a crash at that point did to it, can be
      reopened exactly when its journal is not over and no failed purge had begun to remove the stage; of
      what such a removal leaves, exactly what still has everything the journal counts on. */
  lemma EveryPointReopens(stage: IncomingTransferStage, i: nat, d: Disk)
    requires stage.Valid() && i < |stage.points| && Crash(stage.points[i], d)
    ensures ReopenFault(stage.sha, d).None? <==>
      && stage.points[i].journal.Some? && stage.points[i].journal.value.state !in {J.Completed, J.Cancelled, J.Purging}
      && (i < stage.kept || StillThere(stage.points[i]))
    ensures ReopenFault(stage.sha, d).None? ==> Recoverable(stage.sha, stage.manifest.entries, d)
    ensures stage.kept < |stage.points| ==> stage.phase == Purged && stage.failure.Some?
  {
    hide Leftover, Recoverable, StillThere, Crash;
    var p := stage.points[i];
    assert stage.Past();
    RecoverableIs(stage.sha, stage.manifest.entries, p);
    RecoverableIs(stage.sha, stage.manifest.entries, d);
    SameJournal(p, d);
    if Leftover(stage.sha, stage.manifest.entries, p) {
      CrashKeepsLeftover(stage.sha, stage.manifest.entries, p, d);
      ReopensWhenIntact(stage.sha, stage.manifest.entries, d);
    } else {
      assert Ended(p);
    }
  }

  /** Over the whole life of a stage, and whatever crashes do, a file that is complete stays complete and
      keeps every byte, under whichever of its names it lies. */
  lemma CompleteNeverChanges(stage: IncomingTransferStage, i: nat, j: nat, d: Disk, e: Disk, k: nat)
    requires stage.Valid() && Injective(stage.sha) && i <= j < stage.kept && stage.kept <= |stage.points|
    requires forall n :: i <= n <= j ==> !Ended(stage.points[n])
    requires Crash(stage.points[i], d) && Crash(stage.points[j], e)
    requires d.journal.Some? && IsFile(stage.manifest.entries, k) && k < |d.journal.value.entries| && Through(d.journal.value.entries[k])
    ensures e.journal.Some? && k < |e.journal.value.entries| && Through(e.journal.value.entries[k])
    ensures FoundContent(e, k) == FoundContent(d, k)
  {
    hide Recoverable, Crash;
    var m := stage.manifest.entries;
    assert stage.Past();
    forall n | i <= n <= j ensures Recoverable(stage.sha, m, stage.points[n]) {
      assert Sound(stage.sha, m, stage.points[n]);
    }
    ChainKeeps(stage.sha, m, stage.points, i, j);
    CrashIsRecoverable(stage.sha, m, stage.points[i], d);
    CrashIsRecoverable(stage.sha, m, stage.points[j], e);
    SameJournal(stage.points[i], d);
    SameJournal(stage.points[j], e);
    SameHash(stage.sha, m, d, e, k);
    assert J.Kept(d.journal.value.entries[k], e.journal.value.entries[k]);
  }

  /** A stage whose pause was stored by a write that reported failure is behind its own journal: the store
      refuses every further generation built on the one in memory, and whatever a crash leaves can be
      reopened with the same entries. */
  lemma OutdatedReopens(stage: IncomingTransferStage, d: Disk)
    requires stage.Outdated() && Crash(stage.disk, d)
    ensures stage.journal.Some? && stage.disk.journal.Some? && stage.disk.journal.value.generation != stage.journal.value.generation
    ensures ReopenFault(stage.sha, d).None? && Recoverable(stage.sha, stage.manifest.entries, d)
    ensures d.journal.Some? && d.journal.value.entries == stage.journal.value.entries
  {
    hide Recoverable, Leftover, StillThere, Crash;
    CrashIsRecoverable(stage.sha, stage.manifest.entries, stage.disk, d);
    RecoverableIs(stage.sha, stage.manifest.entries, d);
    SameJournal(stage.disk, d);
    ReopensWhenIntact(stage.sha, stage.manifest.entries, d);
  }

  lemma {:induction false} StaysOver(points: seq<Disk>, i: nat, j: nat)
    requires Chained(points) && i <= j < |points|
    requires points[i].journal.Some? && points[i].journal.value.state in {J.Completed, J.Cancelled, J.Purging}
    ensures points[j].journal.Some? ==> points[j].journal.value.state in {points[i].journal.value.state, J.Purging}
    decreases j - i
  {
    if i < j {
      StaysOver(points, i, j - 1);
      OverStep(points[j - 1].journal, points[j].journal);
    }
  }

  /** Whatever is stored later over a journal that is completed, cancelled or purging is in the same state
      or purging, so nothing a crash leaves from then on can be reopened. */
  lemma OverForGood(stage: IncomingTransferStage, i: nat, j: nat, e: Disk)
    requires stage.Valid() && i <= j < |stage.points| && Crash(stage.points[j], e)
    requires stage.points[i].journal.Some? && stage.points[i].journal.value.state in {J.Completed, J.Cancelled, J.Purging}
    ensures stage.points[j].journal.Some? ==> stage.points[j].journal.value.state in {stage.points[i].journal.value.state, J.Purging}
    ensures ReopenFault(stage.sha, e) == Some(JournalLoadFailed)
  {
    hide Crash;
    assert stage.Past();
    SameJournal(stage.points[j], e);
    StaysOver(stage.points, i, j);
  }

  lemma OverStep(a: Option<J.Journal>, b: Option<J.Journal>)
    requires JournalStep(a, b) && (a.Some? ==> a.value.state in {J.Completed, J.Cancelled, J.Purging})
    ensures b.Some? ==> a.Some? && b.value.state in {a.value.state, J.Purging}
  {
    if a.Some? && b.Some? && b != a {
      J.FollowsExactly(a.value, b.value);
    }
  }

  /** A cancel on working storage is for good: the stored journal says so, no crash leaves anything that
      can be reopened, and every byte stays until the peer acknowledges. */
  method CancelIsFinal(stage: IncomingTransferStage, clock: real, io: Io) returns (performed: bool, r: Reply)
    requires stage.Valid() && stage.phase == Receiving && stage.journal.Some? && Perfect(io)
    requires stage.journal.value.generation + 1 < UINT64_MAX && (stage.file.Some? ==> stage.hashed != [])
    modifies stage
    ensures r.Fine? && performed && stage.Valid() && stage.phase == Cancelled
    ensures stage.disk.journal == stage.journal && stage.journal.Some? && stage.journal.value.state == J.Cancelled
    ensures stage.disk.parts == old(stage.disk.parts) && stage.disk.verified == old(stage.disk.verified)
    ensures forall d :: Crash(stage.disk, d) ==> ReopenFault(stage.sha, d) == Some(JournalLoadFailed)
  {
    hide Crash, StageInv, Recoverable, Leftover, Perfect;
    hide IncomingTransferStage.Valid;
    performed, r := stage.Cancel(Some(clock), io);
    forall d | Crash(stage.disk, d) ensures ReopenFault(stage.sha, d) == Some(JournalLoadFailed) {
      SameJournal(stage.disk, d);
    }
  }

  /** A pause on working storage keeps everything: whatever a crash then leaves can be reopened, and the
      open file is durable up to the last byte that was received. */
  method PauseReopens(stage: IncomingTransferStage, disconnected: bool, clock: real, io: Io) returns (r: Reply)
    requires stage.Valid() && stage.phase == Receiving && stage.journal.Some? && Perfect(io)
    requires stage.journal.value.generation + 1 < UINT64_MAX && (stage.file.Some? ==> stage.hashed != [])
    modifies stage
    ensures r.Fine? && stage.Valid() && stage.journal.Some?
    ensures stage.journal.value.state == (if disconnected then J.WaitingReconnect else J.Paused)
    ensures old(stage.file).Some? ==>
      && old(stage.nextEntry) < |stage.journal.value.entries| && stage.journal.value.entries[old(stage.nextEntry)].p.durable == old(stage.offset)
    ensures forall d :: Crash(stage.disk, d) ==> ReopenFault(stage.sha, d).None? && d.journal == stage.journal
  {
    hide Crash, StageInv, Recoverable, Leftover;
    r := stage.Pause(disconnected, Some(clock), io);
    assert stage.Past();
    forall d | Crash(stage.disk, d) ensures ReopenFault(stage.sha, d).None? && d.journal == stage.journal {
      LastPointReopens(stage, d);
    }
  }

  /** What a crash leaves of a stage with an open file: less than one interval of bytes is lost of it. */
  ghost predicate LosesLittle(stage: IncomingTransferStage, d: Disk)
    reads stage
  {
    && ReopenFault(stage.sha, d).None? && d.journal == stage.journal && d.journal.Some? && stage.nextEntry < |d.journal.value.entries|
    && var durable := d.journal.value.entries[stage.nextEntry].p.durable;
    && stage.offset - stage.byteInterval < durable <= stage.offset == |stage.hashed|
    && (durable > 0 ==> stage.nextEntry in d.parts && stage.hashed[..durable] <= d.parts[stage.nextEntry])
  }

  /** Whatever chunk is accepted, and wherever the checkpoints fell: a crash right after it can be reopened
      and costs less than one interval of the open file. */
  method AcceptThenCrash(stage: IncomingTransferStage, c: PayloadChunk, now: Option<real>, io: Io) returns (r: Reply, w: Option<VerifiedWrite>)
    requires stage.Valid() && 0 < stage.byteInterval
    modifies stage
    ensures stage.Valid()
    ensures r.Fine? && stage.file.Some? ==> forall d :: Crash(stage.disk, d) ==> LosesLittle(stage, d)
  {
    hide Crash, StageInv, Recoverable, Leftover, Received, Onward;
    r, w := stage.Accept(c, now, io);
    if r.Fine? && stage.file.Some? {
      forall d | Crash(stage.disk, d) ensures LosesLittle(stage, d) {
        InvIsLive(stage.sha, stage.manifest.entries, stage.Abs());
        CoreFacts(stage.sha, stage.manifest.entries, stage.Abs());
        LastPointReopens(stage, d);
        OpenPartSurvives(stage.sha, stage.manifest.entries, stage.Abs(), d);
      }
    }
  }

  lemma OpenPartSurvives(sha: Content -> Digest, m: seq<J.Identity>, s: Stage, d: Disk)
    requires Core(sha, m, s) && s.file.Some? && Crash(s.disk, d)
    ensures s.journal.Some? && s.next < |s.journal.value.entries| && |s.hashed| == s.offset
    ensures var durable := s.journal.value.entries[s.next].p.durable;
      0 <= durable <= s.offset && (durable > 0 ==> s.next in d.parts && s.hashed[..durable] <= d.parts[s.next])
  {
    CoreFacts(sha, m, s);
    EntryFacts(sha, m, s.journal.value, s.next);
    assert FileSurvives(s.journal.value.entries[s.next], s.disk, d, s.next);
  }

  lemma LastPointReopens(stage: IncomingTransferStage, d: Disk)
    requires stage.Valid() && stage.phase != Purged && Crash(stage.disk, d)
    requires stage.disk.journal.Some? && stage.disk.journal.value.state !in {J.Completed, J.Cancelled, J.Purging}
    ensures ReopenFault(stage.sha, d).None? && d.journal == stage.disk.journal
  {
    hide Crash, StageInv, Recoverable, Leftover;
    assert stage.Past();
    SameJournal(stage.disk, d);
    EveryPointReopens(stage, |stage.points| - 1, d);
  }

  lemma SameJournal(d: Disk, d': Disk)
    requires Crash(d, d')
    ensures d'.journal == d.journal
  {
  }

  /** How a stage is lost: a cancel that cannot be recorded, and the purge of its timeout failing as well.
      The directory is removed, the journal still says that there is something to resume, and reopening
      finds nothing. */
  method FailedPurgeStrands(stage: IncomingTransferStage, clock: real, io: Io) returns (fired: Option<T.TimeoutName>)
    requires stage.Valid() && stage.phase == Receiving && stage.file.None? && stage.journal.Some?
    requires !Pristine(stage.journal.value) && stage.journal.value.generation < UINT64_MAX && io.commits == FailedBefore
    modifies stage
    ensures stage.Valid() && stage.phase == Purged && stage.failure.Some? && stage.kept < |stage.points|
    ensures stage.disk == Disk(false, map[], map[], old(stage.disk).journal) && stage.disk.journal == old(stage.journal)
    ensures ReopenFault(stage.sha, stage.disk) == Some(Reopening.CorruptPartial)
  {
    hide StageInv, Recoverable, Leftover, J.JournalFault;
    InvIsLive(stage.sha, stage.manifest.entries, stage.Abs());
    CoreFacts(stage.sha, stage.manifest.entries, stage.Abs());
    AllAreReceived(stage.sha, stage.manifest.entries, stage.Abs());
    var done, r := stage.Cancel(Some(clock), io);
    T.FiresWhenDue(stage.timeouts, stage.tracker, stage.tracker.deadline.value);
    fired, r := stage.CheckTimeouts(stage.tracker.deadline.value, io);
  }

  lemma AllAreReceived(sha: Content -> Digest, m: seq<J.Identity>, s: Stage)
    requires Core(sha, m, s)
    ensures s.journal.Some? && forall k :: 0 <= k < |s.journal.value.entries| ==> s.journal.value.entries[k].p.Received?
  {
    forall k | 0 <= k < |s.journal.value.entries| ensures s.journal.value.entries[k].p.Received? {
      JournalReceived(sha, m, s.journal.value, k);
    }
  }

  // ---------------------------------------------------------------- reopening

  /** The one thing a crash can leave that reopening cannot put right: an empty file that was created
      but not yet recorded as complete. */
  ghost predicate EmptyPartLeft(m: seq<J.Identity>, d: Disk) {
    d.journal.Some? && exists f: nat :: f < |m| && FirstOpen(d.journal.value.entries, f) && m[f].size == 0 && f in d.parts
  }

  /** What lies on disk of each file is what the source has there. */
  ghost predicate FromSource(m: seq<J.Identity>, d: Disk, src: nat -> Content)
    requires d.journal.Some? && |m| == |d.journal.value.entries|
  {
    forall i: nat {:trigger src(i)} :: i < |m| && IsFile(m, i) ==> FileFromSource(d.journal.value.entries[i], m[i].size, d, src, i)
  }

  ghost predicate FileFromSource(e: J.Entry, size: int, d: Disk, src: nat -> Content, i: nat) {
    && |src(i)| == size
    && (if Through(e) then (i in d.parts ==> d.parts[i] == src(i)) && (i in d.verified ==> d.verified[i] == src(i))
        else 0 <= e.p.durable <= |src(i)| && (i in d.parts ==>
               e.p.durable <= |d.parts[i]| && d.parts[i][..e.p.durable] == src(i)[..e.p.durable]))
  }

  /** The hashes the journal holds, checked by the sender against its own files, tie the two ends. */
  lemma HashesTieContent(sha: Content -> Digest, m: seq<J.Identity>, d: Disk, src: nat -> Content)
    requires Injective(sha) && Recoverable(sha, m, d)
    requires |m| == |d.journal.value.entries|
    requires forall i: nat :: i < |m| && IsFile(m, i) ==> PrefixChecked(sha, d.journal.value.entries[i], m[i].size, src(i))
    ensures FromSource(m, d, src)
  {
    forall i: nat | i < |m| && IsFile(m, i) ensures FileFromSource(d.journal.value.entries[i], m[i].size, d, src, i) {
      EntryFacts(sha, m, d.journal.value, i);
      assert FileHeld(sha, d.journal.value.entries[i], d, i);
      assert PrefixChecked(sha, d.journal.value.entries[i], m[i].size, src(i));
      assert src(i)[..|src(i)|] == src(i);
    }
  }

  /** What the sender checks of a file before it resumes it. */
  ghost predicate PrefixChecked(sha: Content -> Digest, e: J.Entry, size: int, content: Content) {
    && |content| == size && e.p.Received? && 0 <= e.p.durable <= size
    && (e.p.prefix.Some? ==> e.p.prefix == Some(sha(content[..e.p.durable])))
  }

  /** The source has the hashes the manifest names. */
  ghost predicate TrueHashes(sha: Content -> Digest, m: seq<J.Identity>, src: nat -> Content) {
    forall i: nat {:trigger src(i)} :: IsFile(m, i) ==> |src(i)| == m[i].size && (m[i].expected.Some? ==> m[i].expected == Some(sha(src(i))))
  }

  /** The stage holds a prefix of each source: all of the passed files, the awaited one up to its offset. */
  ghost predicate InStep(m: seq<J.Identity>, s: Stage, src: nat -> Content) {
    && s.phase == Receiving && s.next <= |m|
    && (forall i: nat {:trigger src(i)} :: IsFile(m, i) ==> HeldPrefix(s, src, i))
    && (s.next < |m| ==> IsFile(m, s.next) && s.offset < m[s.next].size)
  }

  ghost predicate HeldPrefix(s: Stage, src: nat -> Content, i: nat) {
    if i < s.next then Held(s, i) == src(i)
    else if i == s.next then s.offset <= |src(i)| && Held(s, i) == src(i)[..s.offset]
    else Held(s, i) == []
  }

  // ---------------------------------------------------------------- one chunk after the other

  lemma {:induction false} NextPayloadSkips(m: seq<J.Identity>, i: nat, k: nat)
    requires i <= k < NextPayload(m, i)
    ensures k < |m| && (m[k].kind == J.Directory || m[k].size == 0) && i <= NextPayload(m, i)
    decreases |m| - i
  {
    if i < k {
      NextPayloadSkips(m, i + 1, k);
    } else {
      NextPayloadUp(m, i);
    }
  }

  lemma {:induction false} NextPayloadUp(m: seq<J.Identity>, i: nat)
    ensures i <= NextPayload(m, i) && (i <= |m| ==> NextPayload(m, i) <= |m|)
    ensures NextPayload(m, i) < |m| ==> IsFile(m, NextPayload(m, i)) && m[NextPayload(m, i)].size != 0
    decreases |m| - i
  {
    if i < |m| && !(m[i].kind == J.File && m[i].size != 0) {
      NextPayloadUp(m, i + 1);
    }
  }

  lemma HeldBefore(m: seq<J.Identity>, s: Stage, src: nat -> Content, i: nat)
    requires InStep(m, s, src) && IsFile(m, i)
    ensures HeldPrefix(s, src, i)
  {
    var c := src(i);
  }

  lemma HeldNow(s: Stage, s': Stage, payload: Content, i: nat)
    requires Received(s, s', payload)
    ensures Held(s', i) == Held(s, i) + (if i == s.next then payload else [])
  {
  }

  /** The next chunk of the stream is the one the stage waits for, and keeps the two in step. */
  lemma ChunkKeepsStep(m: seq<J.Identity>, s: Stage, s': Stage, src: nat -> Content, payload: Content)
    requires InStep(m, s, src) && s.next < |m| && s'.phase == Receiving && Received(s, s', payload)
    requires s.offset + |payload| <= m[s.next].size && |src(s.next)| == m[s.next].size
    requires payload == src(s.next)[s.offset..s.offset + |payload|]
    requires (s'.next, s'.offset) == Position(m, s.next, s.offset + |payload|)
    requires SizesAre(m, src)
    ensures InStep(m, s', src)
  {
    hide NextPayload, Held;
    NextPayloadUp(m, s.next + 1);
    var off := s.offset + |payload|;
    assert src(s.next)[..s.offset] + payload == src(s.next)[..off];
    assert src(s.next)[..|src(s.next)|] == src(s.next);
    forall i: nat | IsFile(m, i) ensures HeldPrefix(s', src, i) {
      HeldBefore(m, s, src, i);
      HeldNow(s, s', payload, i);
      SizeAt(m, src, i);
      if s.next < i < s'.next {
        NextPayloadSkips(m, s.next + 1, i);
        assert src(i) == [];
      }
    }
  }

  /** The rest of a stream continues where the stage will wait. */
  lemma StreamSkips(sha: Content -> Digest, transfer: TransferId, m: seq<J.Identity>, src: nat -> Content, start: nat -> nat,
                    next: nat, off: nat, rest: seq<PayloadChunk>)
    requires next < |m| && IsFile(m, next) && StreamFrom(sha, transfer, m, src, start, next, off, rest)
    requires forall k: nat :: next < k < |m| && IsFile(m, k) ==> start(k) == 0
    ensures var (next', off') := Position(m, next, off); StreamFrom(sha, transfer, m, src, start, next', off', rest)
  {
    if off == m[next].size {
      SkipToPayload(sha, transfer, m, src, start, next + 1, rest);
    }
  }

  lemma {:induction false} SkipToPayload(sha: Content -> Digest, transfer: TransferId, m: seq<J.Identity>, src: nat -> Content, start: nat -> nat,
                                         i: nat, rest: seq<PayloadChunk>)
    requires StreamFrom(sha, transfer, m, src, start, i, start(i), rest)
    requires forall k: nat :: i <= k < |m| && IsFile(m, k) ==> start(k) == 0
    ensures StreamFrom(sha, transfer, m, src, start, NextPayload(m, i), 0, rest)
    decreases |m| - i
  {
    if i < |m| && !(m[i].kind == J.File && m[i].size != 0) {
      SkipToPayload(sha, transfer, m, src, start, i + 1, rest);
    }
  }

  /** An open file with all its bytes holds the source. */
  lemma FullyHeld(sha: Content -> Digest, m: seq<J.Identity>, s: Stage, s': Stage, src: nat -> Content, payload: Content)
    requires InStep(m, s, src) && s.next < |m| && Received(s, s', payload) && Core(sha, m, s')
    requires |src(s.next)| == m[s.next].size && s.offset + |payload| <= |src(s.next)| && payload == src(s.next)[s.offset..s.offset + |payload|]
    requires s'.file.Some? && IsFile(m, s'.next) && s'.offset == m[s'.next].size == |src(s'.next)|
    ensures s'.hashed == src(s'.next)
  {
    hide InStep, Received, Core;
    CoreFacts(sha, m, s');
    var i := s'.next;
    HeldNow(s, s', payload, i);
    HeldBefore(m, s, src, i);
    assert Held(s', i) == s'.hashed;
    assert src(s.next)[..s.offset] + payload == src(s.next)[..s.offset + |payload|];
    assert src(i)[..|src(i)|] == src(i);
  }

  /** With true hashes and generations left, no completion fails to be recorded. */
  lemma NeverStuck(sha: Content -> Digest, m: seq<J.Identity>, s: Stage, s': Stage, src: nat -> Content, payload: Content)
    requires InStep(m, s, src) && s.next < |m| && s'.phase == Receiving && Received(s, s', payload) && StageInv(sha, m, s')
    requires |src(s.next)| == m[s.next].size && s.offset + |payload| <= |src(s.next)| && payload == src(s.next)[s.offset..s.offset + |payload|]
    requires TrueHashes(sha, m, src) && s'.journal.Some? && s'.journal.value.generation < UINT64_MAX
    ensures !Stuck(sha, s')
  {
    InvIsLive(sha, m, s');
    CoreFacts(sha, m, s');
    if s'.file.Some? && s'.offset == m[s'.next].size {
      assert |src(s'.next)| == m[s'.next].size;
      FullyHeld(sha, m, s, s', src, payload);
    }
  }

  /** The stage takes a whole stream, in order, and ends with every file equal to its source. */
  method ReceiveAll(stage: IncomingTransferStage, chunks: seq<PayloadChunk>, ghost src: nat -> Content, ghost start: nat -> nat, io: Io)
    returns (r: Reply)
    requires stage.Valid() && Perfect(io) && stage.journal.Some?
    requires InStep(stage.manifest.entries, stage.Abs(), src) && TrueHashes(stage.sha, stage.manifest.entries, src)
    requires StreamFrom(stage.sha, stage.transfer, stage.manifest.entries, src, start, stage.nextEntry, stage.offset, chunks)
    requires forall k: nat :: stage.nextEntry < k && IsFile(stage.manifest.entries, k) ==> start(k) == 0
    requires stage.journal.value.generation + |chunks| + |stage.manifest.entries| - stage.nextEntry + 2 < UINT64_MAX
    modifies stage
    ensures r.Fine? && stage.Valid() && stage.phase == Receiving && stage.nextEntry == |stage.manifest.entries| && stage.file.None?
    ensures forall i: nat :: IsFile(stage.manifest.entries, i) ==> Held(stage.Abs(), i) == src(i)
    ensures stage.bytesDone == old(stage.bytesDone) + Emitted(chunks)
    ensures stage.journal.Some? && stage.journal.value.generation + 2 < UINT64_MAX
    ensures Onward(old(stage.journal), stage.journal) && (chunks == [] ==> stage.journal == old(stage.journal))
  {
    hide StageInv, Live, Core, StreamFrom, InStep, TrueHashes, Received, Stuck, Emitted, NextPayload, Carries;
    ghost var m := stage.manifest.entries;
    r := Fine;
    var k := 0;
    while k < |chunks|
      invariant 0 <= k <= |chunks| && r.Fine?
      invariant stage.Valid() && stage.journal.Some? && InStep(m, stage.Abs(), src)
      invariant StreamFrom(stage.sha, stage.transfer, m, src, start, stage.nextEntry, stage.offset, chunks[k..])
      invariant forall j: nat :: stage.nextEntry < j && IsFile(m, j) ==> start(j) == 0
      invariant stage.journal.value.generation + (|chunks| - k) + |m| - stage.nextEntry + 2 < UINT64_MAX
      invariant stage.bytesDone + Emitted(chunks[k..]) == old(stage.bytesDone) + Emitted(chunks)
      invariant Onward(old(stage.journal), stage.journal) && (k == 0 ==> stage.journal == old(stage.journal))
    {
      EmittedStep(chunks[k..]);
      r := ReceiveOne(stage, chunks[k..], src, start, io);
      assert chunks[k..][1..] == chunks[k + 1..];
      k := k + 1;
    }
    assert chunks[k..] == [];
    EmittedStep([]);
    StreamEnd(stage.sha, stage.transfer, m, stage.Abs(), src, start);
  }

  method ReceiveOne(stage: IncomingTransferStage, chunks: seq<PayloadChunk>, ghost src: nat -> Content, ghost start: nat -> nat, io: Io)
    returns (r: Reply)
    requires stage.Valid() && Perfect(io) && stage.journal.Some? && chunks != []
    requires InStep(stage.manifest.entries, stage.Abs(), src) && TrueHashes(stage.sha, stage.manifest.entries, src)
    requires StreamFrom(stage.sha, stage.transfer, stage.manifest.entries, src, start, stage.nextEntry, stage.offset, chunks)
    requires forall k: nat :: stage.nextEntry < k && IsFile(stage.manifest.entries, k) ==> start(k) == 0
    requires stage.journal.value.generation + 1 + |stage.manifest.entries| - stage.nextEntry + 2 < UINT64_MAX
    modifies stage
    ensures r.Fine? && stage.Valid() && stage.journal.Some? && InStep(stage.manifest.entries, stage.Abs(), src)
    ensures StreamFrom(stage.sha, stage.transfer, stage.manifest.entries, src, start, stage.nextEntry, stage.offset, chunks[1..])
    ensures stage.nextEntry >= old(stage.nextEntry) && Emitted(chunks) == |chunks[0].payload| + Emitted(chunks[1..])
    ensures stage.bytesDone == old(stage.bytesDone) + |chunks[0].payload|
    ensures stage.journal.value.generation + old(stage.nextEntry) <= old(stage.journal).value.generation + 1 + stage.nextEntry
    ensures Onward(old(stage.journal), stage.journal)
  {
    hide StageInv, Live, Core, StreamFrom, InStep, TrueHashes, Received, Stuck, NextPayload, Emitted, Position, Core;
    ghost var m := stage.manifest.entries;
    ghost var s := stage.Abs();
    StreamHead(stage.sha, stage.transfer, m, s, src, start, chunks);
    EmittedStep(chunks);
    var w;
    r, w := stage.Accept(chunks[0], None, io);
    if stage.phase == Receiving {
      AfterChunk(stage.sha, stage.transfer, m, s, stage.Abs(), src, start, chunks);
    }
  }

  lemma EmittedStep(chunks: seq<PayloadChunk>)
    ensures Emitted(chunks) == if chunks == [] then 0 else |chunks[0].payload| + Emitted(chunks[1..])
  {
  }

  /** What one accepted chunk leaves behind on both ends, and why it was accepted. */
  lemma AfterChunk(sha: Content -> Digest, transfer: TransferId, m: seq<J.Identity>, s: Stage, s': Stage, src: nat -> Content,
                   start: nat -> nat, chunks: seq<PayloadChunk>)
    requires chunks != [] && InStep(m, s, src) && TrueHashes(sha, m, src) && StreamFrom(sha, transfer, m, src, start, s.next, s.offset, chunks)
    requires forall k: nat :: s.next < k && IsFile(m, k) ==> start(k) == 0
    requires StageInv(sha, m, s') && s'.phase == Receiving && Received(s, s', chunks[0].payload)
    ensures s.next < |m| && s'.next <= |m| && s'.journal.Some?
    ensures s'.journal.value.generation < UINT64_MAX ==> !Stuck(sha, s')
    ensures (s'.next, s'.offset) == Position(m, s.next, s.offset + |chunks[0].payload|) ==>
      && InStep(m, s', src) && s.next <= s'.next
      && StreamFrom(sha, transfer, m, src, start, s'.next, s'.offset, chunks[1..])
  {
    hide StageInv, Live, Core, StreamFrom, InStep, Received, Stuck, NextPayload, Held, Leftover, Recoverable, Waiting, Rest;
    StreamHead(sha, transfer, m, s, src, start, chunks);
    TrueSizes(sha, m, src);
    SizeAt(m, src, s.next);
    hide TrueHashes, SizesAre;
    InvIsLive(sha, m, s');
    CoreFacts(sha, m, s');
    var c := chunks[0];
    if s'.journal.value.generation < UINT64_MAX {
      NeverStuck(sha, m, s, s', src, c.payload);
    }
    NextPayloadUp(m, s.next + 1);
    if (s'.next, s'.offset) == Position(m, s.next, s.offset + |c.payload|) {
      ChunkKeepsStep(m, s, s', src, c.payload);
      StreamSkips(sha, transfer, m, src, start, s.next, s.offset + |c.payload|, chunks[1..]);
    }
  }

  ghost predicate SizesAre(m: seq<J.Identity>, src: nat -> Content) {
    forall i: nat {:trigger src(i)} :: IsFile(m, i) ==> |src(i)| == m[i].size && m[i].size >= 0
  }

  lemma TrueSizes(sha: Content -> Digest, m: seq<J.Identity>, src: nat -> Content)
    requires TrueHashes(sha, m, src)
    ensures SizesAre(m, src)
  {
    forall i: nat | IsFile(m, i) ensures |src(i)| == m[i].size {
      var c := src(i);
    }
  }

  lemma SizeAt(m: seq<J.Identity>, src: nat -> Content, i: nat)
    requires SizesAre(m, src) && IsFile(m, i)
    ensures |src(i)| == m[i].size && m[i].size >= 0
  {
    var c := src(i);
  }

  lemma StreamHead(sha: Content -> Digest, transfer: TransferId, m: seq<J.Identity>, s: Stage, src: nat -> Content, start: nat -> nat,
                   chunks: seq<PayloadChunk>)
    requires InStep(m, s, src) && StreamFrom(sha, transfer, m, src, start, s.next, s.offset, chunks) && chunks != []
    ensures s.next < |m| && IsFile(m, s.next) && s.phase == Receiving
    ensures var c := chunks[0];
      && ChunkOk(sha, c) && c.transfer == transfer && c.entry == s.next && c.offset == s.offset && s.offset + |c.payload| <= m[s.next].size
      && s.offset + |c.payload| <= |src(s.next)| && c.payload == src(s.next)[s.offset..s.offset + |c.payload|]
      && StreamFrom(sha, transfer, m, src, start, s.next, s.offset + |c.payload|, chunks[1..])
  {
  }

  lemma StreamEnd(sha: Content -> Digest, transfer: TransferId, m: seq<J.Identity>, s: Stage, src: nat -> Content, start: nat -> nat)
    requires InStep(m, s, src) && StreamFrom(sha, transfer, m, src, start, s.next, s.offset, []) && StageInv(sha, m, s)
    ensures s.next == |m| && s.file.None? && s.phase == Receiving
    ensures forall i: nat :: IsFile(m, i) ==> Held(s, i) == src(i)
  {
    InvIsLive(sha, m, s);
    CoreFacts(sha, m, s);
    forall i: nat | IsFile(m, i) ensures Held(s, i) == src(i) {
      assert HeldPrefix(s, src, i);
    }
  }

  // ---------------------------------------------------------------- both ends restart from one plan

  /** With a true hash no file is fully durable and incomplete. */
  lemma NotFull(sha: Content -> Digest, m: seq<J.Identity>, d: Disk, src: nat -> Content, i: nat)
    requires Recoverable(sha, m, d) && |m| == |d.journal.value.entries| && FromSource(m, d, src) && TrueHashes(sha, m, src)
    requires IsFile(m, i) && !Through(d.journal.value.entries[i]) && m[i].size > 0
    ensures d.journal.value.entries[i].p.durable < m[i].size
  {
    var e := d.journal.value.entries[i];
    EntryFacts(sha, m, d.journal.value, i);
    assert FileHeld(sha, e, d, i) && Definite(e);
    assert FileFromSource(e, m[i].size, d, src, i) && |src(i)| == m[i].size;
    assert src(i)[..|src(i)|] == src(i);
  }

  /** A reopened stage holds a prefix of the source of every file. */
  lemma ReopenedInStep(sha: Content -> Digest, m: seq<J.Identity>, a: Stage, b: Stage, src: nat -> Content)
    requires Reading(sha, m, a) && a.next == 0 && |m| == |a.journal.value.entries| && FromSource(m, a.disk, src) && TrueHashes(sha, m, src)
    requires Live(sha, m, b) && b.phase == Receiving && b.journal.Some? && CutBack(a, b) && b.next <= |m| && PassedAll(m, a, b.next)
    requires b.file.Some? ==> b.next < |m| && b.offset == a.journal.value.entries[b.next].p.durable
    requires b.next < |m| ==> IsFile(m, b.next) && !Through(a.journal.value.entries[b.next]) && (b.file.Some? <==> b.next in a.disk.parts)
    requires b.next < |m| ==> m[b.next].size != 0
    ensures InStep(m, b, src)
  {
    CoreFacts(sha, m, b);
    var es := a.journal.value.entries;
    forall i: nat | IsFile(m, i) ensures HeldPrefix(b, src, i) {
      EntryFacts(sha, m, a.journal.value, i);
      assert FileHeld(sha, es[i], a.disk, i) && FileFromSource(es[i], m[i].size, a.disk, src, i) && |src(i)| == m[i].size;
      if i < b.next {
        PassedHeld(sha, m, a, src, i);
      } else if i > b.next {
        EntryFacts(sha, m, a.journal.value, b.next);
        LaterUntouched(sha, m, a.disk, b.next, i);
      }
    }
    if b.next < |m| {
      EntryFacts(sha, m, a.journal.value, b.next);
      NotFull(sha, m, a.disk, src, b.next);
    }
  }

  lemma PassedHeld(sha: Content -> Digest, m: seq<J.Identity>, a: Stage, src: nat -> Content, i: nat)
    requires Reading(sha, m, a) && |m| == |a.journal.value.entries| && IsFile(m, i) && |src(i)| == m[i].size
    requires FileFromSource(a.journal.value.entries[i], m[i].size, a.disk, src, i)
    requires Through(a.journal.value.entries[i]) || (m[i].size == 0 && i !in a.disk.parts)
    ensures Held(a, i) == src(i)
  {
    EntryFacts(sha, m, a.journal.value, i);
    assert FileHeld(sha, a.journal.value.entries[i], a.disk, i);
  }

  /** Reopening stops at an empty file exactly when a crash left one half made. */
  lemma StopsAtEmpty(sha: Content -> Digest, m: seq<J.Identity>, a: Stage, b: Stage)
    requires Reading(sha, m, a) && a.next == 0 && |m| == |a.journal.value.entries| && b.next <= |m| && PassedAll(m, a, b.next)
    requires b.next < |m| ==> IsFile(m, b.next) && !Through(a.journal.value.entries[b.next])
    requires b.next < |m| && m[b.next].size == 0 ==> b.next in a.disk.parts
    ensures EmptyPartLeft(m, a.disk) <==> b.next < |m| && m[b.next].size == 0
  {
    hide Reading, PassedAll;
    ReadingFacts(sha, m, a);
    var es := a.journal.value.entries;
    if b.next < |m| && m[b.next].size == 0 {
      FirstWithPart(sha, m, a, b.next);
    }
    if EmptyPartLeft(m, a.disk) {
      var f: nat :| f < |m| && FirstOpen(es, f) && m[f].size == 0 && f in a.disk.parts;
      StopsAtFirst(sha, m, a, b.next, f);
    }
  }

  /** Reading stops at the first incomplete file when that has its part. */
  lemma StopsAtFirst(sha: Content -> Digest, m: seq<J.Identity>, a: Stage, k: nat, f: nat)
    requires Reading(sha, m, a) && a.journal.Some? && |m| == |a.journal.value.entries| && k <= |m| && PassedAll(m, a, k)
    requires k < |m| ==> IsFile(m, k) && !Through(a.journal.value.entries[k])
    requires f < |m| && FirstOpen(a.journal.value.entries, f) && f in a.disk.parts
    ensures k == f
  {
    EntryFacts(sha, m, a.journal.value, f);
    if k < |m| {
      EntryFacts(sha, m, a.journal.value, k);
    }
  }

  /** An incomplete file with a part is the first incomplete one. */
  lemma FirstWithPart(sha: Content -> Digest, m: seq<J.Identity>, a: Stage, f: nat)
    requires Reading(sha, m, a) && |m| == |a.journal.value.entries| && IsFile(m, f) && !Through(a.journal.value.entries[f]) && f in a.disk.parts
    ensures FirstOpen(a.journal.value.entries, f)
  {
    var es := a.journal.value.entries;
    EntryFacts(sha, m, a.journal.value, f);
    forall k | 0 <= k < f && es[k].id.kind == J.File ensures Through(es[k]) {
      EntryFacts(sha, m, a.journal.value, k);
    }
  }

  /** What the sender does not send is what the stage has already passed. */
  lemma {:induction false} StreamReaches(sha: Content -> Digest, transfer: TransferId, m: seq<J.Identity>, src: nat -> Content, start: nat -> nat,
                                         i: nat, next: nat, chunks: seq<PayloadChunk>)
    requires i <= next <= |m| && StreamFrom(sha, transfer, m, src, start, i, start(i), chunks)
    requires forall k: nat :: i <= k < next && IsFile(m, k) ==> start(k) >= m[k].size
    ensures StreamFrom(sha, transfer, m, src, start, next, start(next), chunks)
    decreases next - i
  {
    if i < next {
      StreamReaches(sha, transfer, m, src, start, i + 1, next, chunks);
    }
  }

  /** The plan the sender restarts from holds the durable offset and prefix hash of every file. */
  ghost predicate PlanOf(stream: SequentialFileStream, j: J.Journal) {
    forall i: nat {:trigger stream.Start(i)} :: i < |j.entries| && j.entries[i].id.kind == J.File ==>
      && i in stream.resume && stream.resume[i].durable == j.entries[i].p.durable && j.entries[i].p.Received?
      && stream.resume[i].prefix == j.entries[i].p.prefix && stream.Start(i) == j.entries[i].p.durable
  }

  /** Both ends belong to one transfer: the sender streams from the plan its own journal and the receiver's
      yield, and its sources pass all its checks. */
  ghost predicate SameTransfer(sha: Content -> Digest, manifest: J.Manifest, found: Disk, outgoing: J.Journal, stream: SequentialFileStream)
    reads stream
  {
    && stream.sha == sha && stream.manifest == manifest && stream.state == Ready && 0 < stream.chunkSize <= IncomingStage.MAX_BINARY_PAYLOAD_BYTES
    && Recoverable(sha, manifest.entries, found) && |manifest.entries| == |found.journal.value.entries|
    && StreamsFrom(stream, J.ValidateResumePair(sha([]), outgoing, found.journal.value, manifest))
    && forall i :: 0 <= i < |manifest.entries| ==> stream.SourceOk(i)
  }

  predicate StreamsFrom(stream: SequentialFileStream, plan: Result<J.ResumePlan, J.Code>) {
    && plan.Ok? && stream.transfer == plan.value.transfer
    && (forall f :: f in plan.value.files ==> f.entry >= 0) && stream.resume == PlanMap(plan.value.files)
  }

  /** That plan is the receiver's journal as far as the sender looks at it. */
  lemma PlanAgrees(sha: Content -> Digest, manifest: J.Manifest, found: Disk, outgoing: J.Journal, stream: SequentialFileStream)
    requires SameTransfer(sha, manifest, found, outgoing, stream)
    ensures PlanOf(stream, found.journal.value) && stream.PlanFits() && stream.transfer == found.journal.value.transfer
  {
    var j := found.journal.value;
    hide Recoverable, J.ValidateResumePair, PlanMap, InOrder;
    var r := J.ValidateResumePair(sha([]), outgoing, j, manifest);
    PairPlan(sha([]), outgoing, j, manifest, r.value);
    assert stream.manifest == manifest && 0 < stream.chunkSize <= IncomingStage.MAX_BINARY_PAYLOAD_BYTES;
    PlanFitsJournal(sha([]), manifest.entries, j, stream);
  }

  /** A map of the evidence of a journal's files is that journal's plan. */
  lemma PlanFitsJournal(empty: Digest, m: seq<J.Identity>, j: J.Journal, stream: SequentialFileStream)
    requires stream.manifest.entries == m && |m| == |j.entries| && InOrder(empty, j.entries)
    requires 0 < stream.chunkSize <= IncomingStage.MAX_BINARY_PAYLOAD_BYTES
    requires forall k: nat :: k in stream.resume <==> k < |m| && m[k].kind == J.File
    requires forall k :: k in stream.resume ==> stream.resume[k] == J.Evidence(j.entries[k])
    requires forall k :: 0 <= k < |m| ==> j.entries[k].id == m[k] && m[k].size >= 0
    ensures PlanOf(stream, j) && stream.PlanFits()
  {
    hide InOrder;
    forall i: nat | i < |m| && m[i].kind == J.File
      ensures i in stream.resume && j.entries[i].p.Received? && 0 <= j.entries[i].p.durable <= m[i].size
      ensures stream.resume[i].durable == j.entries[i].p.durable && stream.resume[i].prefix == j.entries[i].p.prefix
    {
      EvidenceAt(empty, j.entries, i);
    }
  }

  lemma SourcesAreTrue(sha: Content -> Digest, manifest: J.Manifest, found: Disk, outgoing: J.Journal, stream: SequentialFileStream)
    requires SameTransfer(sha, manifest, found, outgoing, stream) && Injective(sha)
    ensures TrueHashes(sha, manifest.entries, stream.source) && FromSource(manifest.entries, found, stream.source)
    ensures forall i: nat :: i < |manifest.entries| && IsFile(manifest.entries, i) && manifest.entries[i].size == 0 ==>
      manifest.entries[i].expected.Some? ==> manifest.entries[i].expected == Some(sha([]))
  {
    var m := manifest.entries;
    PlanAgrees(sha, manifest, found, outgoing, stream);
    forall i: nat | i < |m| && IsFile(m, i)
      ensures |stream.source(i)| == m[i].size && (m[i].expected.Some? ==> m[i].expected == Some(sha(stream.source(i))))
      ensures PrefixChecked(sha, found.journal.value.entries[i], m[i].size, stream.source(i))
      ensures m[i].size == 0 ==> stream.source(i) == []
    {
      EntryFacts(sha, m, found.journal.value, i);
      assert stream.SourceOk(i) && stream.Start(i) == found.journal.value.entries[i].p.durable;
    }
    HashesTieContent(sha, m, found, stream.source);
  }

  /** Reopens a stage that a crash left. */
  method Reopen(sha: Content -> Digest, manifest: J.Manifest, found: Disk, byteInterval: nat, timeInterval: real, timeouts: T.Timeouts,
                ghost src: nat -> Content, io: Io) returns (stage: IncomingTransferStage, r: Reply)
    requires Recoverable(sha, manifest.entries, found) && !Terminal(found.journal.value.state)
    requires |manifest.entries| == |found.journal.value.entries| && FromSource(manifest.entries, found, src) && TrueHashes(sha, manifest.entries, src)
    requires Perfect(io) && found.journal.value.generation + |manifest.entries| < UINT64_MAX && found.journal.value.retryCount < UINT64_MAX
    ensures fresh(stage) && stage.sha == sha && stage.manifest == manifest && stage.transfer == found.journal.value.transfer
    ensures r.Fine? && stage.Valid() && stage.phase == Receiving && stage.journal.Some? && stage.nextEntry <= |manifest.entries|
    ensures EmptyPartLeft(manifest.entries, found) <==> stage.nextEntry < |manifest.entries| && manifest.entries[stage.nextEntry].size == 0
    ensures !EmptyPartLeft(manifest.entries, found) ==> InStep(manifest.entries, stage.Abs(), src)
    ensures forall i: nat {:trigger found.journal.value.entries[i]} :: i < stage.nextEntry && IsFile(manifest.entries, i) ==>
      Through(found.journal.value.entries[i]) || manifest.entries[i].size == 0
    ensures stage.nextEntry < |manifest.entries| ==>
      && IsFile(manifest.entries, stage.nextEntry) && !Through(found.journal.value.entries[stage.nextEntry])
      && stage.offset == (if stage.file.Some? then found.journal.value.entries[stage.nextEntry].p.durable else 0)
    ensures stage.nextEntry < |manifest.entries| && stage.file.None? ==> stage.nextEntry !in found.parts
    ensures stage.journal.value.generation <= found.journal.value.generation + stage.nextEntry + 1
    ensures RestoredState(found.journal, stage.journal, stage.nextEntry)
    ensures AllComplete(found.journal.value.entries) ==> stage.journal.value.state == found.journal.value.state
  {
    hide StageInv, Live, Core, InStep, TrueHashes, FromSource, CutBack, EmptyPartLeft, Reading, PassedAll, Recoverable;
    stage := new IncomingTransferStage.Attach(sha, manifest, found, byteInterval, timeInterval, timeouts, io.clock);
    ghost var a := stage.Abs();
    ReadingFacts(sha, manifest.entries, a);
    EmptyHashes(stage, src);
    r := stage.Restore(io);
    AfterReopen(sha, manifest.entries, found, a, stage.Abs(), src);
    assert a.journal == found.journal;
  }

  lemma AfterReopen(sha: Content -> Digest, m: seq<J.Identity>, found: Disk, a: Stage, b: Stage, src: nat -> Content)
    requires Reading(sha, m, a) && a.next == 0 && a.disk == found.(present := true) && a.journal == found.journal && a.journal.Some?
    requires |m| == |a.journal.value.entries| && FromSource(m, found, src) && TrueHashes(sha, m, src)
    requires StageInv(sha, m, b) && b.phase == Receiving && b.journal.Some? && CutBack(a, b) && PassedAll(m, a, b.next)
    requires |b.journal.value.entries| == |m|
    requires b.file.Some? ==> b.next < |m| && b.offset == b.journal.value.entries[b.next].p.durable
    requires b.next < |m| ==>
      && IsFile(m, b.next) && !Through(a.journal.value.entries[b.next]) && (b.file.Some? <==> b.next in a.disk.parts)
      && b.journal.value.entries[b.next] == a.journal.value.entries[b.next]
    ensures b.next <= |m|
    ensures EmptyPartLeft(m, found) <==> b.next < |m| && m[b.next].size == 0
    ensures !EmptyPartLeft(m, found) ==> InStep(m, b, src)
    ensures forall i: nat {:trigger found.journal.value.entries[i]} :: i < b.next && IsFile(m, i) ==> Through(found.journal.value.entries[i]) || m[i].size == 0
    ensures b.next < |m| ==> b.offset == (if b.file.Some? then found.journal.value.entries[b.next].p.durable else 0)
  {
    InvIsLive(sha, m, b);
    CoreFacts(sha, m, b);
    WaitingFacts(sha, m, b);
    SameFiles(m, found, a, src);
    hide StageInv, Live, Core, InStep, TrueHashes, FromSource, CutBack, EmptyPartLeft, Reading;
    StopsAtEmpty(sha, m, a, b);
    if !EmptyPartLeft(m, found) {
      ReopenedInStep(sha, m, a, b, src);
    }
  }

  lemma EmptyHashes(stage: IncomingTransferStage, src: nat -> Content)
    requires TrueHashes(stage.sha, stage.manifest.entries, src)
    ensures stage.EmptyHashesTrue()
  {
    forall i: nat | i < |stage.manifest.entries| && IsFile(stage.manifest.entries, i) && stage.manifest.entries[i].size == 0
      ensures stage.EmptyHashTrue(i)
    {
      assert |src(i)| == 0 && src(i) == [];
    }
  }

  lemma WaitingFacts(sha: Content -> Digest, m: seq<J.Identity>, b: Stage)
    requires b.journal.Some? && |m| == |b.journal.value.entries| && Waiting(sha, m, b)
    ensures b.next < |m| && b.file.None? ==> m[b.next].size > 0
  {
  }

  /** The directory of a stage plays no part in what its files hold. */
  lemma SameFiles(m: seq<J.Identity>, found: Disk, a: Stage, src: nat -> Content)
    requires a.disk == found.(present := true) && found.journal.Some? && |m| == |found.journal.value.entries|
    ensures EmptyPartLeft(m, a.disk) == EmptyPartLeft(m, found) && FromSource(m, a.disk, src) == FromSource(m, found, src)
  {
    forall i: nat | i < |m| && IsFile(m, i)
      ensures FileFromSource(found.journal.value.entries[i], m[i].size, a.disk, src, i)
           == FileFromSource(found.journal.value.entries[i], m[i].size, found, src, i)
    {
    }
  }

  /** The receiver reopens and the sender streams from the receiver's journal: what it sends starts
      exactly where the stage waits. */
  method Restart(sha: Content -> Digest, manifest: J.Manifest, found: Disk, outgoing: J.Journal, stream: SequentialFileStream,
                 byteInterval: nat, timeInterval: real, timeouts: T.Timeouts, schedule: (nat, nat) -> nat, io: Io)
    returns (stage: IncomingTransferStage, chunks: seq<PayloadChunk>)
    requires SameTransfer(sha, manifest, found, outgoing, stream) && Injective(sha) && !Terminal(found.journal.value.state) && Perfect(io)
    requires found.journal.value.retryCount < UINT64_MAX && found.journal.value.generation + |manifest.entries| < UINT64_MAX
    modifies stream
    ensures fresh(stage) && stage.Valid() && stage.manifest == manifest && stage.sha == sha && stage.transfer == stream.transfer
    ensures stage.phase == Receiving && stage.nextEntry <= |manifest.entries| && stage.journal.Some?
    ensures stream.state == Streamed && stream.completion.Some? && stream.Vouches(stream.completion.value)
    ensures |chunks| <= Emitted(chunks) == Missing(manifest.entries, stream.Begin(), 0, stream.Start(0))
    ensures EmptyPartLeft(manifest.entries, found) <==> stage.nextEntry < |manifest.entries| && manifest.entries[stage.nextEntry].size == 0
    ensures !EmptyPartLeft(manifest.entries, found) ==> InStep(manifest.entries, stage.Abs(), stream.source)
    ensures TrueHashes(sha, manifest.entries, stream.source)
    ensures StreamFrom(sha, stream.transfer, manifest.entries, stream.source, stream.Begin(), stage.nextEntry, stage.offset, chunks)
    ensures forall k: nat :: stage.nextEntry < k && IsFile(manifest.entries, k) ==> stream.Begin()(k) == 0
    ensures stage.journal.value.generation <= found.journal.value.generation + stage.nextEntry + 1
    ensures RestoredState(found.journal, stage.journal, stage.nextEntry)
    ensures AllComplete(found.journal.value.entries) ==> stage.journal.value.state == found.journal.value.state
    ensures stage.nextEntry < |manifest.entries| ==> IsFile(manifest.entries, stage.nextEntry) && !Through(found.journal.value.entries[stage.nextEntry])
  {
    hide StreamFrom, InStep, FromSource, TrueHashes, EmptyPartLeft, Recoverable, Emitted, Missing, StageInv, PlanOf, Injective, SizeOf, Terminal;
    PlanAgrees(sha, manifest, found, outgoing, stream);
    SourcesAreTrue(sha, manifest, found, outgoing, stream);
    var r;
    stage, r := Reopen(sha, manifest, found, byteInterval, timeInterval, timeouts, stream.source, io);
    var s;
    chunks, s := stream.IterChunks(schedule);
    FewChunks(sha, stream.transfer, manifest.entries, stream.source, stream.Begin(), 0, stream.Start(0), chunks);
    StartsWhereStageIs(sha, manifest, found, stream, stage.nextEntry, stage.offset, stage.file, chunks);
  }

  /** The receiver reopens, the sender restarts from the receiver's journal, and for every schedule of
      short reads the receiver takes every chunk and ends with every file equal to its source: always,
      unless a crash left an empty file half made. Then the stage waits for that file for ever and
      refuses whatever the sender sends. Only the missing bytes are sent. */
  method ResumeAgreement(sha: Content -> Digest, manifest: J.Manifest, found: Disk, outgoing: J.Journal, stream: SequentialFileStream,
                         byteInterval: nat, timeInterval: real, timeouts: T.Timeouts, schedule: (nat, nat) -> nat, io: Io)
    returns (stage: IncomingTransferStage, chunks: seq<PayloadChunk>, agreed: bool)
    requires SameTransfer(sha, manifest, found, outgoing, stream) && Injective(sha) && !Terminal(found.journal.value.state) && Perfect(io)
    requires found.journal.value.retryCount < UINT64_MAX
    requires found.journal.value.generation + Missing(manifest.entries, stream.Begin(), 0, stream.Start(0)) + 2 * |manifest.entries| + 4 < UINT64_MAX
    modifies stream
    ensures fresh(stage) && stage.Valid() && stage.manifest == manifest && stage.sha == sha
    ensures stream.state == Streamed && stream.completion.Some? && stream.Vouches(stream.completion.value)
    ensures Emitted(chunks) == Missing(manifest.entries, stream.Begin(), 0, stream.Start(0))
    ensures agreed <==> !EmptyPartLeft(manifest.entries, found)
    ensures agreed ==>
      && stage.phase == Receiving && stage.nextEntry == |manifest.entries| && stage.file.None?
      && forall i: nat :: IsFile(manifest.entries, i) ==> Held(stage.Abs(), i) == stream.source(i)
    ensures !agreed ==> stage.nextEntry < |manifest.entries| && manifest.entries[stage.nextEntry].size == 0 && (chunks != [] ==> stage.phase == Failed)
    ensures stage.transfer == stream.transfer
    ensures agreed ==>
      && stage.journal.Some? && stage.journal.value.generation + 1 < UINT64_MAX
      && stage.journal.value.state == (if AllComplete(found.journal.value.entries) then found.journal.value.state else J.Transferring)
  {
    hide StreamFrom, InStep, FromSource, TrueHashes, EmptyPartLeft, Recoverable, Emitted, Missing, StageInv, PlanOf, Held, Injective, SizeOf, Terminal, SameTransfer;
    TransferFacts(sha, manifest, found, outgoing, stream);
    stage, chunks := Restart(sha, manifest, found, outgoing, stream, byteInterval, timeInterval, timeouts, schedule, io);
    agreed := !(stage.nextEntry < |manifest.entries| && manifest.entries[stage.nextEntry].size == 0);
    var r;
    ghost var reopened := stage.Abs();
    if agreed {
      NothingToSend(sha, stream.transfer, manifest.entries, stream.source, stream.Begin(), stage.nextEntry, stage.offset, chunks);
      r := ReceiveAll(stage, chunks, stream.source, stream.Begin(), io);
      StateAtEnd(sha, manifest.entries, found, reopened, stage.Abs());
    } else if chunks != [] {
      var w;
      r, w := stage.Accept(chunks[0], None, io);
    }
  }

  lemma TransferFacts(sha: Content -> Digest, manifest: J.Manifest, found: Disk, outgoing: J.Journal, stream: SequentialFileStream)
    requires SameTransfer(sha, manifest, found, outgoing, stream)
    ensures Recoverable(sha, manifest.entries, found) && |manifest.entries| == |found.journal.value.entries|
  {
  }

  lemma NothingToSend(sha: Content -> Digest, transfer: TransferId, m: seq<J.Identity>, src: nat -> Content, start: nat -> nat,
                      i: nat, off: nat, chunks: seq<PayloadChunk>)
    requires StreamFrom(sha, transfer, m, src, start, i, off, chunks)
    ensures i >= |m| ==> chunks == []
  {
  }

  /** When everything has arrived, the journal is transferring, or still in the state it was found in when
      there was nothing left to receive. */
  lemma StateAtEnd(sha: Content -> Digest, m: seq<J.Identity>, found: Disk, mid: Stage, end: Stage)
    requires Recoverable(sha, m, found) && |m| == |found.journal.value.entries|
    requires StageInv(sha, m, mid) && mid.phase == Receiving && StageInv(sha, m, end) && end.phase == Receiving && end.next == |m|
    requires RestoredState(found.journal, mid.journal, mid.next) && Onward(mid.journal, end.journal)
    requires AllComplete(found.journal.value.entries) ==> mid.journal.value.state == found.journal.value.state
    requires mid.next < |m| ==> IsFile(m, mid.next) && !Through(found.journal.value.entries[mid.next])
    requires mid.next >= |m| ==> end.journal == mid.journal
    ensures end.journal.Some?
    ensures end.journal.value.state == if AllComplete(found.journal.value.entries) then found.journal.value.state else J.Transferring
  {
    var es := found.journal.value.entries;
    hide Recoverable, HashesOf, Named, OpenPart, Counted, Waiting, StageJournal;
    InvIsLive(sha, m, mid);
    InvIsLive(sha, m, end);
    CoreFacts(sha, m, mid);
    CoreFacts(sha, m, end);
    forall i: nat | i < |m| ensures es[i].id == m[i] {
      FoundEntry(sha, m, found, i);
    }
    if !AllComplete(es) && end.journal == mid.journal {
      forall i | IsFile(m, i) ensures i < mid.next {
        assert Through(end.journal.value.entries[i]);
      }
    }
  }

  lemma FoundEntry(sha: Content -> Digest, m: seq<J.Identity>, found: Disk, i: nat)
    requires Recoverable(sha, m, found) && |m| == |found.journal.value.entries| && i < |m|
    ensures found.journal.value.entries[i].id == m[i]
  {
    EntryFacts(sha, m, found.journal.value, i);
  }

  lemma {:induction false} FewChunks(sha: Content -> Digest, transfer: TransferId, m: seq<J.Identity>, src: nat -> Content, start: nat -> nat,
                                     i: nat, off: nat, chunks: seq<PayloadChunk>)
    requires StreamFrom(sha, transfer, m, src, start, i, off, chunks)
    ensures |chunks| <= Emitted(chunks)
    decreases |m| - i, |chunks|
  {
    if i < |m| {
      if !IsFile(m, i) || off >= m[i].size {
        FewChunks(sha, transfer, m, src, start, i + 1, start(i + 1), chunks);
      } else {
        FewChunks(sha, transfer, m, src, start, i, off + |chunks[0].payload|, chunks[1..]);
      }
    }
  }

  /** The sender's first chunk is the one the reopened stage waits for. */
  lemma StartsWhereStageIs(sha: Content -> Digest, manifest: J.Manifest, found: Disk, stream: SequentialFileStream,
                           next: nat, offset: nat, file: Option<nat>, chunks: seq<PayloadChunk>)
    requires Recoverable(sha, manifest.entries, found) && |manifest.entries| == |found.journal.value.entries|
    requires stream.sha == sha && stream.manifest == manifest && PlanOf(stream, found.journal.value)
    requires next <= |manifest.entries|
    requires StreamFrom(sha, stream.transfer, manifest.entries, stream.source, stream.Begin(), 0, stream.Start(0), chunks)
    requires forall i: nat {:trigger found.journal.value.entries[i]} :: i < next && IsFile(manifest.entries, i) ==>
      Through(found.journal.value.entries[i]) || manifest.entries[i].size == 0
    requires next < |manifest.entries| ==>
      && IsFile(manifest.entries, next) && !Through(found.journal.value.entries[next])
      && offset == (if file.Some? then found.journal.value.entries[next].p.durable else 0)
      && (file.None? ==> next !in found.parts)
    ensures StreamFrom(sha, stream.transfer, manifest.entries, stream.source, stream.Begin(), next, offset, chunks)
    ensures forall k: nat :: next < k && IsFile(manifest.entries, k) ==> stream.Begin()(k) == 0
  {
    var m := manifest.entries;
    var es := found.journal.value.entries;
    forall k: nat | IsFile(m, k)
      ensures k < next ==> stream.Begin()(k) >= m[k].size
      ensures k == next ==> stream.Begin()(k) == offset
      ensures next < k ==> stream.Begin()(k) == 0
    {
      EntryFacts(sha, m, found.journal.value, k);
      assert FileHeld(sha, es[k], found, k);
      assert stream.Start(k) == es[k].p.durable;
      if next < k {
        EntryFacts(sha, m, found.journal.value, next);
        LaterUntouched(sha, m, found, next, k);
      }
    }
    StreamReaches(sha, stream.transfer, m, stream.source, stream.Begin(), 0, next, chunks);
  }

  // ---------------------------------------------------------------- what finalizing means

  /** Once the evidence of a sender matched, every published file is the sender's file byte for byte,
      whatever chunks arrived in whatever sessions. */
  lemma SealedIsSource(stage: IncomingTransferStage, src: nat -> Content, hashes: map<int, Digest>)
    requires stage.FilesSealed(hashes) && Injective(stage.sha)
    requires forall k: nat :: k in hashes ==> hashes[k] == stage.sha(src(k))
    ensures forall i: nat :: IsFile(stage.manifest.entries, i) ==> i in stage.disk.verified && stage.disk.verified[i] == src(i)
  {
    forall i: nat | IsFile(stage.manifest.entries, i) ensures i in stage.disk.verified && stage.disk.verified[i] == src(i) {
      assert stage.sha(stage.disk.verified[i]) == stage.sha(src(i));
    }
  }

  /** A stage that has everything and holds the source has the hashes the source vouches for. */
  lemma EvidenceAgrees(stage: IncomingTransferStage, stream: SequentialFileStream, c: Completion)
    requires stage.Valid() && stage.phase == Receiving && stage.nextEntry == |stage.manifest.entries| && stage.file.None?
    requires stream.manifest == stage.manifest && stream.transfer == stage.transfer && stream.sha == stage.sha && stream.Vouches(c)
    requires forall i: nat :: IsFile(stage.manifest.entries, i) ==> Held(stage.Abs(), i) == stream.source(i)
    ensures stage.FinalizeReady(c)
  {
    var s, m := stage.Abs(), stage.manifest.entries;
    InvIsLive(stage.sha, m, s);
    AllReceived(stage.sha, m, s);
    forall i: nat | IsFile(m, i) ensures i in stage.hashes && stage.hashes[i] == c.hashes[i] {
      HeldHash(stage.sha, m, s, i);
    }
  }

  lemma VouchedIsSource(stage: IncomingTransferStage, stream: SequentialFileStream, c: Completion)
    requires stage.FilesSealed(c.hashes) && Injective(stage.sha) && stream.sha == stage.sha && stream.Vouches(c)
    ensures forall i: nat :: IsFile(stage.manifest.entries, i) ==> i in stage.disk.verified && stage.disk.verified[i] == stream.source(i)
  {
    SealedIsSource(stage, stream.source, c.hashes);
  }

  lemma NotReady(stage: IncomingTransferStage, c: Completion)
    requires stage.nextEntry < |stage.manifest.entries|
    ensures !stage.FinalizeReady(c)
  {
  }

  lemma HeldHash(sha: Content -> Digest, m: seq<J.Identity>, s: Stage, i: nat)
    requires Core(sha, m, s) && s.file.None? && IsFile(m, i) && i < s.next
    ensures i in s.hashes && s.hashes[i] == sha(Held(s, i))
  {
    EntryFacts(sha, m, s.journal.value, i);
    assert FileHeld(sha, s.journal.value.entries[i], s.disk, i);
  }

  /** The end of a resumed stream: it seals exactly when everything arrived and the journal may turn to
      finalizing. */
  method SealResumed(stage: IncomingTransferStage, stream: SequentialFileStream, agreed: bool, io: Io) returns (r: Reply)
    requires stage.Valid() && Perfect(io) && Injective(stage.sha) && stream.completion.Some? && stream.Vouches(stream.completion.value)
    requires stream.manifest == stage.manifest && stream.transfer == stage.transfer && stream.sha == stage.sha
    requires agreed ==>
      && stage.phase == Receiving && stage.nextEntry == |stage.manifest.entries| && stage.file.None?
      && stage.journal.Some? && stage.journal.value.generation + 1 < UINT64_MAX
      && forall i: nat :: IsFile(stage.manifest.entries, i) ==> Held(stage.Abs(), i) == stream.source(i)
    requires !agreed ==> stage.nextEntry < |stage.manifest.entries|
    modifies stage
    ensures stage.Valid()
    ensures r.Fine? <==> agreed && old(stage.journal).value.state in {J.Created, J.Transferring, J.Paused, J.WaitingReconnect, J.Verifying, J.Finalizing}
    ensures r.Fine? ==> stage.Sealed()
    ensures r.Fine? ==> forall i: nat :: IsFile(stage.manifest.entries, i) ==> i in stage.disk.verified && stage.disk.verified[i] == stream.source(i)
  {
    hide StageInv, Held, Injective;
    hide IncomingTransferStage.Valid, IncomingTransferStage.FinalizeReady, IncomingTransferStage.FilesSealed, IncomingTransferStage.Sealed, SequentialFileStream.Vouches;
    var c := stream.completion.value;
    if agreed {
      EvidenceAgrees(stage, stream, c);
    } else {
      NotReady(stage, c);
    }
    r := stage.Finalize(c, None, io);
    if r.Fine? {
      VouchedIsSource(stage, stream, c);
    }
  }

  /** From a crash to a sealed transfer. Finalizing succeeds exactly when no empty file was left half made
      and either something was still to be received or the journal may turn to finalizing as it is; a journal
      that failed, or never got beyond the preflight, may not. Then every file under its verified name is the source. */
  method ResumeAndFinalize(sha: Content -> Digest, manifest: J.Manifest, found: Disk, outgoing: J.Journal, stream: SequentialFileStream,
                           byteInterval: nat, timeInterval: real, timeouts: T.Timeouts, schedule: (nat, nat) -> nat, io: Io)
    returns (stage: IncomingTransferStage, r: Reply)
    requires SameTransfer(sha, manifest, found, outgoing, stream) && Injective(sha) && !Terminal(found.journal.value.state) && Perfect(io)
    requires found.journal.value.retryCount < UINT64_MAX
    requires found.journal.value.generation + Missing(manifest.entries, stream.Begin(), 0, stream.Start(0)) + 2 * |manifest.entries| + 4 < UINT64_MAX
    modifies stream
    ensures fresh(stage) && stage.Valid() && stage.manifest == manifest
    ensures r.Fine? <==>
      && !EmptyPartLeft(manifest.entries, found)
      && (!AllComplete(found.journal.value.entries) || found.journal.value.state in {J.Created, J.Transferring, J.Paused, J.WaitingReconnect, J.Verifying, J.Finalizing})
    ensures r.Fine? ==> stage.Sealed()
    ensures r.Fine? ==> forall i: nat :: IsFile(manifest.entries, i) ==> i in stage.disk.verified && stage.disk.verified[i] == stream.source(i)
  {
    hide EmptyPartLeft, Recoverable, StageInv, PlanOf, Held, SizeOf, Terminal, Missing, Injective, StreamsFrom, Perfect, AllComplete;
    hide IncomingTransferStage.Valid, IncomingTransferStage.Sealed, SequentialFileStream.Vouches;
    var chunks, agreed;
    stage, chunks, agreed := ResumeAgreement(sha, manifest, found, outgoing, stream, byteInterval, timeInterval, timeouts, schedule, io);
    r := SealResumed(stage, stream, agreed, io);
  }

  /** A crash after the journal turned to finalizing, at any rename or before or after the generation
      that records them, is recovered by reopening and finalizing again from the journal alone. */
  method RecoverFinalizing(sha: Content -> Digest, manifest: J.Manifest, found: Disk, byteInterval: nat, timeInterval: real,
                           timeouts: T.Timeouts, io: Io) returns (stage: IncomingTransferStage, r: Reply)
    requires Recoverable(sha, manifest.entries, found) && found.journal.value.state == J.Finalizing && Perfect(io)
    requires found.journal.value.generation + |manifest.entries| + 3 < UINT64_MAX && found.journal.value.retryCount < UINT64_MAX
    ensures fresh(stage) && stage.Valid() && stage.manifest == manifest && stage.sha == sha
    ensures r.Fine? && stage.Sealed() && stage.FilesSealed(Receipts(found.journal.value.entries)) && stage.FilesSealed(stage.hashes)
    ensures stage.transfer == found.journal.value.transfer && stage.binding == found.journal.value.binding
    ensures stage.journal.Some? && stage.journal.value.generation <= found.journal.value.generation + |manifest.entries| + 3
    ensures forall i: nat :: IsFile(manifest.entries, i) ==> i in stage.disk.verified && stage.disk.verified[i] == FoundContent(found, i)
    ensures stage.points != [] && stage.disk == stage.points[|stage.points| - 1]
    ensures forall i :: 0 <= i < |stage.points| ==> StillFinalizing(sha, manifest.entries, found, stage.points[i])
  {
    hide StageInv, Core, CutBack, Recoverable, Receipts, Steady, StillFinalizing, AllComplete, SameHeld;
    hide IncomingTransferStage.FilesSealed, IncomingTransferStage.Past;
    ghost var a;
    stage, a := ReopenFinalizing(sha, manifest, found, byteInterval, timeInterval, timeouts, io);
    ghost var b, second := stage.Abs(), stage.points;
    FoundComplete(sha, manifest.entries, found);
    r := stage.RecoverFinalization(io);
    SteadyTrans(J.Finalizing, [found, found.(present := true)], second, stage.points);
    RecoveredPoints(stage, found, [found, found.(present := true)]);
    InvRest(sha, manifest.entries, stage.Abs());
    SealedAsFound(stage, found, a, b);
  }

  /** What was sealed are the files that were found, under the hashes the journal had for them. */
  lemma SealedAsFound(stage: IncomingTransferStage, found: Disk, a: Stage, b: Stage)
    requires Recoverable(stage.sha, stage.manifest.entries, found) && AllComplete(found.journal.value.entries) && |stage.manifest.entries| == |found.journal.value.entries|
    requires a.disk == found.(present := true) && a.file.None? && b.journal.Some? && CutBack(a, b)
    requires Core(stage.sha, stage.manifest.entries, b) && b.next == |stage.manifest.entries| && b.file.None? && AllComplete(b.journal.value.entries)
    requires SameHeld(b, stage.Abs()) && stage.FilesSealed(stage.hashes) && stage.file.None?
    requires stage.FilesSealed(Receipts(b.journal.value.entries))
    ensures stage.FilesSealed(Receipts(found.journal.value.entries))
    ensures forall i: nat :: IsFile(stage.manifest.entries, i) ==> i in stage.disk.verified && stage.disk.verified[i] == FoundContent(found, i)
  {
    hide Recoverable, Core, Receipts;
    SameReceipts(stage.sha, stage.manifest.entries, found, a, b);
    SameContent(stage, found, a, b);
  }

  /** The first half: the stage is open again behind its last entry, as it was found. */
  method ReopenFinalizing(sha: Content -> Digest, manifest: J.Manifest, found: Disk, byteInterval: nat, timeInterval: real,
                          timeouts: T.Timeouts, io: Io) returns (stage: IncomingTransferStage, ghost a: Stage)
    requires Recoverable(sha, manifest.entries, found) && found.journal.value.state == J.Finalizing && Perfect(io)
    requires found.journal.value.generation + |manifest.entries| + 3 < UINT64_MAX && found.journal.value.retryCount < UINT64_MAX
    ensures fresh(stage) && stage.Valid() && stage.manifest == manifest && stage.sha == sha && stage.phase == Receiving
    ensures stage.transfer == found.journal.value.transfer && stage.binding == found.journal.value.binding
    ensures a.disk == found.(present := true) && a.file.None?
    ensures var b := stage.Abs();
            && Core(sha, manifest.entries, b) && b.journal.Some? && b.next == |manifest.entries| && b.file.None?
            && AllComplete(b.journal.value.entries) && CutBack(a, b) && b.journal.value.state == J.Finalizing
            && b.journal.value.generation <= found.journal.value.generation + |manifest.entries| + 1
    ensures Steady(J.Finalizing, [found, found.(present := true)], stage.points)
  {
    hide StageInv, Live, Core, CutBack, Reading, PassedAll, Recoverable, Steady;
    FoundComplete(sha, manifest.entries, found);
    stage := new IncomingTransferStage.Attach(sha, manifest, found, byteInterval, timeInterval, timeouts, io.clock);
    a := stage.Abs();
    ReadingFacts(sha, manifest.entries, a);
    CompleteEmpties(stage, found);
    var r := stage.Restore(io);
    InvIsLive(sha, manifest.entries, stage.Abs());
    CoreFacts(sha, manifest.entries, stage.Abs());
    FinalizingComplete(sha, manifest.entries, stage.Abs());
  }

  /** A disk on which a stage that was being finalized is still all there. */
  ghost predicate StillFinalizing(sha: Content -> Digest, m: seq<J.Identity>, found: Disk, p: Disk) {
    && Recoverable(sha, m, found) && Recoverable(sha, m, p) && p.journal.value.state == J.Finalizing
    && SameAndMore(found.journal.value, p.journal.value)
  }

  /** All that recovering went through is such a disk. */
  lemma RecoveredPoints(stage: IncomingTransferStage, found: Disk, first: seq<Disk>)
    requires stage.Valid() && stage.phase == Finalizing && Recoverable(stage.sha, stage.manifest.entries, found)
    requires found.journal.Some? && found.journal.value.state == J.Finalizing && first == [found, found.(present := true)]
    requires Steady(J.Finalizing, first, stage.points)
    ensures stage.points != [] && stage.disk == stage.points[|stage.points| - 1]
    ensures forall i :: 0 <= i < |stage.points| ==> StillFinalizing(stage.sha, stage.manifest.entries, found, stage.points[i])
  {
    hide Recoverable, SameAndMore, Chained, Steady, Leftover;
    var m := stage.manifest.entries;
    LivePoints(stage);
    forall i | 0 <= i < |stage.points|
      ensures stage.points[i].journal.Some? && stage.points[i].journal.value.state == J.Finalizing && Recoverable(stage.sha, m, stage.points[i])
    {
      SteadyAt(J.Finalizing, first, stage.points, i);
    }
    forall i | 0 <= i < |stage.points| ensures StillFinalizing(stage.sha, m, found, stage.points[i]) {
      SteadyAt(J.Finalizing, first, stage.points, 0);
      ChainKeeps(stage.sha, m, stage.points, 0, i);
    }
  }

  lemma SteadyAt(state: J.State, first: seq<Disk>, points: seq<Disk>, i: nat)
    requires Steady(state, first, points) && i < |points|
    requires first != [] && forall k :: 0 <= k < |first| ==> first[k].journal.Some? && first[k].journal.value.state == state
    ensures points[i].journal.Some? && points[i].journal.value.state == state && points[0] == first[0]
  {
    if i < |first| {
      assert points[i] == first[i];
    }
  }

  /** A stage that is not purged has only had points that are live or over, one journal after the other. */
  lemma LivePoints(stage: IncomingTransferStage)
    requires stage.Valid() && stage.phase != Purged
    ensures Chained(stage.points) && stage.points != [] && stage.disk == stage.points[|stage.points| - 1]
    ensures forall i :: 0 <= i < |stage.points| ==> Recoverable(stage.sha, stage.manifest.entries, stage.points[i]) || Ended(stage.points[i])
  {
    hide Recoverable, Chained, StageInv;
    assert stage.Past() && stage.kept == |stage.points|;
    forall i | 0 <= i < |stage.points| ensures Recoverable(stage.sha, stage.manifest.entries, stage.points[i]) || Ended(stage.points[i]) {
      assert Sound(stage.sha, stage.manifest.entries, stage.points[i]);
    }
  }

  /** The bytes of file `i` on a disk, under whichever of its two names. */
  function FoundContent(d: Disk, i: nat): Content {
    if i in d.verified then d.verified[i] else if i in d.parts then d.parts[i] else []
  }

  /** Neither reopening nor sealing changes what a complete file holds. */
  lemma SameContent(stage: IncomingTransferStage, found: Disk, a: Stage, b: Stage)
    requires a.disk == found.(present := true) && a.file.None? && b.file.None? && b.journal.Some? && CutBack(a, b)
    requires SameHeld(b, stage.Abs()) && stage.FilesSealed(stage.hashes) && stage.file.None?
    ensures forall i: nat :: IsFile(stage.manifest.entries, i) ==> i in stage.disk.verified && stage.disk.verified[i] == FoundContent(found, i)
  {
    forall i: nat | IsFile(stage.manifest.entries, i) ensures i in stage.disk.verified && stage.disk.verified[i] == FoundContent(found, i) {
      assert Held(a, i) == FoundContent(found, i) && Held(b, i) == Held(a, i) && Held(stage.Abs(), i) == Held(b, i);
    }
  }

  lemma FoundComplete(sha: Content -> Digest, m: seq<J.Identity>, found: Disk)
    requires Recoverable(sha, m, found) && found.journal.value.state == J.Finalizing
    ensures found.journal.Some?
    ensures AllComplete(found.journal.value.entries) && |m| == |found.journal.value.entries| && !Terminal(J.Finalizing)
  {
    assert |J.Identities(found.journal.value.entries)| == |m|;
  }

  /** Complete empty files already passed the check of the manifest's hash. */
  lemma CompleteEmpties(stage: IncomingTransferStage, found: Disk)
    requires Recoverable(stage.sha, stage.manifest.entries, found) && AllComplete(found.journal.value.entries)
    ensures stage.EmptyHashesTrue()
  {
    var m := stage.manifest.entries;
    forall i: nat | i < |m| && IsFile(m, i) && m[i].size == 0 ensures stage.EmptyHashTrue(i) {
      EntryFacts(stage.sha, m, found.journal.value, i);
    }
  }

  /** Reopening changes no receipt: it is the hash of content that did not change. */
  lemma SameReceipts(sha: Content -> Digest, m: seq<J.Identity>, found: Disk, a: Stage, b: Stage)
    requires Recoverable(sha, m, found) && AllComplete(found.journal.value.entries) && |m| == |found.journal.value.entries|
    requires a.disk == found.(present := true) && a.file.None?
    requires Core(sha, m, b) && b.journal.Some? && b.next == |m| && b.file.None? && AllComplete(b.journal.value.entries) && CutBack(a, b)
    ensures forall i :: IsFile(m, i) ==>
      i in Receipts(found.journal.value.entries) && i in Receipts(b.journal.value.entries)
      && Receipts(found.journal.value.entries)[i] == Receipts(b.journal.value.entries)[i]
  {
    forall i: nat | IsFile(m, i)
      ensures i in Receipts(found.journal.value.entries) && i in Receipts(b.journal.value.entries)
        && Receipts(found.journal.value.entries)[i] == Receipts(b.journal.value.entries)[i]
    {
      EntryFacts(sha, m, found.journal.value, i);
      EntryFacts(sha, m, b.journal.value, i);
      assert FileHeld(sha, found.journal.value.entries[i], found, i) && FileHeld(sha, b.journal.value.entries[i], b.disk, i);
      assert Held(a, i) == Held(b, i);
    }
  }

  // ---------------------------------------------------------------- silence

  /** A stage that hears nothing more reaches a phase without a wait, after at most two timeouts,
      exactly when it has no open file to which nothing was written. Such a file makes its pause fail
      with an error no caller expects, and since the timeout has then fired it never fires again: the
      stage stays receiving for ever. */
  method SilentPeer(stage: IncomingTransferStage, io: Io) returns (firings: nat)
    requires stage.Valid() && Perfect(io) && stage.tracker.fired.None? && stage.RoomToPause()
    requires stage.tracker.phase == T.Cancelled ==> stage.journal.Some?
    modifies stage
    ensures firings <= 2 && stage.Valid()
    ensures !T.Bounded(stage.tracker.phase) <==> !old(stage.ZeroOpen())
    ensures old(stage.ZeroOpen()) ==> stage.phase == Receiving && forall later :: T.Checked(stage.tracker, later).1.None?
  {
    hide StageInv;
    if stage.ZeroOpen() {
      var fired, r := stage.CheckTimeouts(stage.tracker.deadline.value, io);
      firings := 1;
    } else {
      firings := stage.RunOut(io);
    }
  }

  /** Reopening leaves such a file whenever the first incomplete file has a part but no durable byte:
      a crash before its first checkpoint. */
  method ReopenedZero(sha: Content -> Digest, manifest: J.Manifest, found: Disk, byteInterval: nat, timeInterval: real,
                      timeouts: T.Timeouts, ghost f: nat, io: Io) returns (stage: IncomingTransferStage, r: Reply)
    requires Recoverable(sha, manifest.entries, found) && !Terminal(found.journal.value.state) && |manifest.entries| == |found.journal.value.entries|
    requires f < |manifest.entries| && FirstOpen(found.journal.value.entries, f) && f in found.parts && found.journal.value.entries[f].p.durable == 0
    ensures fresh(stage) && stage.manifest == manifest && stage.sha == sha
    ensures r.Fine? ==> stage.Valid() && stage.ZeroOpen() && stage.tracker == T.Entered(timeouts, T.Receiving, io.clock)
    ensures r.Fine? ==> stage.journal.Some? && stage.journal.value.generation <= found.journal.value.generation + |manifest.entries| + 1
    ensures (Perfect(io) && stage.EmptyHashesTrue() && found.journal.value.retryCount < UINT64_MAX
             && found.journal.value.generation + |manifest.entries| < UINT64_MAX) ==> r.Fine?
  {
    hide StageInv, Live, Core, CutBack, Reading, Recoverable;
    stage := new IncomingTransferStage.Attach(sha, manifest, found, byteInterval, timeInterval, timeouts, io.clock);
    ghost var a := stage.Abs();
    ReadingFacts(sha, manifest.entries, a);
    r := stage.Restore(io);
    if r.Fine? {
      InvIsLive(sha, manifest.entries, stage.Abs());
      CoreFacts(sha, manifest.entries, stage.Abs());
      StopsAtPart(manifest.entries, a, stage.nextEntry, f);
    }
  }

  lemma StopsAtPart(m: seq<J.Identity>, a: Stage, next: nat, f: nat)
    requires a.journal.Some? && |m| == |a.journal.value.entries| && PassedAll(m, a, next) && next <= |m|
    requires f < |m| && FirstOpen(a.journal.value.entries, f) && f in a.disk.parts && IsFile(m, f)
    requires next < |m| ==> IsFile(m, next) && !Through(a.journal.value.entries[next]) && a.journal.value.entries[next].id == m[next]
    ensures next == f
  {
    assert f < next ==> Through(a.journal.value.entries[f]) || f !in a.disk.parts;
  }

  // ---------------------------------------------------------------- the smallest stages that get stuck

  const SOMEONE := J.Binding(1, 2, 3, 4, 5, Digest(6))

  function OneFile(size: nat): seq<J.Identity> {
    [J.Identity(0, J.File, size, 7, None)]
  }

  /** One file of the given size, created on disk, with nothing recorded of it. */
  function Begun(size: nat): Disk {
    Disk(true, map[0 := []], map[],
         Some(J.Journal(2, J.Incoming, Uuid(1), 0, SOMEONE, size, 1, 0, 0, 0, J.Created, 0,
                        [J.Entry(OneFile(size)[0], J.Received(0, 0, None, false, None, J.Missing))])))
  }

  lemma BegunEntries(sha: Content -> Digest, size: nat)
    requires size <= UINT64_MAX
    ensures var es := Begun(size).journal.value.entries;
      J.EntriesValid(sha([]), J.Incoming, es) && J.TotalsOf(es) == J.Totals(size, 1, 0) && J.Identities(es) == OneFile(size)
  {
    var es := Begun(size).journal.value.entries;
    assert es[..0] == [] && J.TotalsOf([]) == J.Totals(0, 0, 0);
    assert J.ShapeOk(J.Incoming, 0, es[0]) && J.GeometryOk(sha([]), es[0]);
  }

  lemma BegunJournal(sha: Content -> Digest, size: nat)
    requires size <= UINT64_MAX
    ensures StageJournal(sha, OneFile(size), Begun(size).journal.value)
  {
    hide J.EntriesValid, J.TotalsOf, J.EntriesFault, J.Identities, J.JournalFault;
    var j := Begun(size).journal.value;
    BegunEntries(sha, size);
    J.ValidMeansNoFault(sha([]), J.Incoming, j.entries);
    NoJournalFault(sha([]), j);
    assert Definite(j.entries[0]);
  }

  lemma NoJournalFault(empty: Digest, j: J.Journal)
    requires j.schema == 2 && J.HeaderOk(j) && J.EntriesFault(empty, j.direction, j.entries).None?
    requires J.TotalsOf(j.entries) == J.Totals(j.totalSize, j.fileCount, j.directoryCount) && j.state != J.Completed
    ensures J.JournalOk(empty, j)
  {
    hide J.EntriesFault, J.TotalsOf;
  }

  /** A single file struck by a crash just after it was created: an empty one is the case resume cannot
      finish, and any one is the case a silent peer is never timed out on. */
  lemma BegunIsRecoverable(sha: Content -> Digest, size: nat)
    requires size <= UINT64_MAX
    ensures Recoverable(sha, OneFile(size), Begun(size)) && EmptyPartLeft(OneFile(size), Begun(size)) == (size == 0)
    ensures FirstOpen(Begun(size).journal.value.entries, 0) && Begun(size).journal.value.entries[0].p.durable == 0
  {
    hide StageJournal, J.JournalFault, J.EntriesFault, J.TotalsOf, J.Identities;
    BegunJournal(sha, size);
    assert OneFile(size)[0].size == size && FirstOpen(Begun(size).journal.value.entries, 0);
  }

  /** The whole stuck run: a stage with one file of any size crashes just after the file was created, is
      reopened, and hears nothing more. Its timeout fires once, its pause fails, and no later moment ever
      makes another one fire. */
  method StuckForEver(sha: Content -> Digest, size: nat, manifest: J.Manifest, byteInterval: nat, timeInterval: real, timeouts: T.Timeouts, io: Io)
    returns (stage: IncomingTransferStage, firings: nat)
    requires size <= UINT64_MAX && manifest.entries == OneFile(size) && Perfect(io)
    ensures fresh(stage) && stage.Valid() && stage.phase == Receiving && firings <= 2
    ensures forall later :: T.Checked(stage.tracker, later).1.None?
  {
    hide StageInv, Recoverable, FirstOpen;
    BegunIsRecoverable(sha, size);
    var r;
    stage, r := ReopenedZero(sha, manifest, Begun(size), byteInterval, timeInterval, timeouts, 0, io);
    firings := SilentPeer(stage, io);
  }
}
