/** The receiver's persistent staging: what is on disk for one transfer, what a crash may do to it,
    and the journal updates that go with it. */
module Staging {
  import opened Common
  import opened ResumeJournal

  type Content = seq<Byte>

  /** The stage directory holds `<i>.part` and `<i>.verified` files; the journal lies beside it. */
  datatype Disk = Disk(present: bool, parts: map<nat, Content>, verified: map<nat, Content>, journal: Option<Journal>)

  /** The hash of the whole file, and the hash of its durable prefix, are what the journal claims. */
  ghost predicate FileHeld(sha: Content -> Digest, e: Entry, d: Disk, i: nat)
    requires e.p.Received?
  {
    if e.id.kind == Directory then i !in d.parts && i !in d.verified
    else if e.p.completed then
      && (i in d.parts <==> i !in d.verified)
      && (i in d.parts ==> Whole(sha, e, d.parts[i])) && (i in d.verified ==> Whole(sha, e, d.verified[i]))
    else
      && i !in d.verified && (e.p.durable > 0 ==> i in d.parts) && (i in d.parts ==> Prefixed(sha, e, d.parts[i]))
  }

  ghost predicate Whole(sha: Content -> Digest, e: Entry, c: Content)
    requires e.p.Received?
  {
    |c| == e.id.size && e.p.receiver == Some(sha(c))
  }

  ghost predicate Prefixed(sha: Content -> Digest, e: Entry, c: Content)
    requires e.p.Received?
  {
    0 <= e.p.durable <= |c| && (e.p.durable > 0 ==> e.p.prefix == Some(sha(c[..e.p.durable])))
  }

  predicate Pristine(j: Journal) {
    j.state == Created && forall i :: 0 <= i < |j.entries| && j.entries[i].id.kind == File ==> !HasProgress(j.entries[i])
  }

  predicate Terminal(s: State) {
    s in {Completed, Cancelled, Purging}
  }

  predicate AllComplete(es: seq<Entry>) {
    forall i :: 0 <= i < |es| && es[i].id.kind == File ==> es[i].p.Received? && es[i].p.completed
  }

  /** The journal of a stage: valid, incoming, for this manifest, and finalizing only with every file
      complete. */
  ghost predicate StageJournal(sha: Content -> Digest, m: seq<Identity>, j: Journal) {
    && JournalOk(sha([]), j) && j.direction == Incoming && j.schema == 2 && Identities(j.entries) == m
    && (j.state in {Verifying, Finalizing} ==> AllComplete(j.entries))
    && (forall i {:trigger j.entries[i]} :: 0 <= i < |j.entries| ==> j.entries[i].p.Received? && Definite(j.entries[i]))
  }

  /** The manifest names another hash for this file. */
  predicate Mismatch(e: Entry, digest: Digest) {
    e.id.expected.Some? && e.id.expected != Some(digest)
  }

  /** A non-empty file is fully durable without being complete only when its bytes do not have the
      hash the manifest names. */
  predicate Definite(e: Entry) {
    e.p.Received? && e.id.kind == File && !e.p.completed && 0 < e.id.size == e.p.durable ==>
      e.p.prefix.Some? && Mismatch(e, e.p.prefix.value)
  }

  ghost predicate FilesHeld(sha: Content -> Digest, es: seq<Entry>, d: Disk)
    requires forall i :: 0 <= i < |es| ==> es[i].p.Received?
  {
    forall i {:trigger FileHeld(sha, es[i], d, i)} :: 0 <= i < |es| ==> FileHeld(sha, es[i], d, i)
  }

  /** Only the first incomplete file can have a part besides the complete ones. */
  ghost predicate NothingAhead(es: seq<Entry>, d: Disk) {
    && (forall i :: i in d.parts || i in d.verified ==> i < |es|)
    && (forall a, b {:trigger es[a], b in d.parts} :: 0 <= a < b < |es| && es[a].id.kind == File && es[a].p.Received? && !es[a].p.completed ==>
          b !in d.parts)
  }

  /** What every persistent state of a live stage satisfies, and all that reopening it needs. */
  ghost predicate Recoverable(sha: Content -> Digest, m: seq<Identity>, d: Disk) {
    && d.journal.Some? && StageJournal(sha, m, d.journal.value)
    && FilesHeld(sha, d.journal.value.entries, d) && NothingAhead(d.journal.value.entries, d)
    && (!d.present ==> Pristine(d.journal.value) && d.parts == map[] && d.verified == map[])
  }

  // ---------------------------------------------------------------- crashes

  /** What a crash leaves of the file `i`: a complete file keeps its bytes but its last rename may be
      undone or done; an incomplete one keeps at least its durable prefix, followed by anything, and
      one without durable bytes may be gone. */
  ghost predicate FileSurvives(e: Entry, d: Disk, d': Disk, i: nat)
    requires e.p.Received?
  {
    if e.p.completed then
      && (i in d.parts || i in d.verified <==> i in d'.parts || i in d'.verified) && !(i in d'.parts && i in d'.verified)
      && (i in d'.parts ==> (i in d.parts && d'.parts[i] == d.parts[i]) || (i in d.verified && d'.parts[i] == d.verified[i]))
      && (i in d'.verified ==> (i in d.parts && d'.verified[i] == d.parts[i]) || (i in d.verified && d'.verified[i] == d.verified[i]))
    else
      && i !in d'.verified && (i in d'.parts ==> i in d.parts)
      && (e.p.durable > 0 && i in d.parts ==>
            && i in d'.parts && 0 <= e.p.durable <= |d.parts[i]| && e.p.durable <= |d'.parts[i]|
            && d'.parts[i][..e.p.durable] == d.parts[i][..e.p.durable])
  }

  ghost predicate Crash(d: Disk, d': Disk) {
    && d'.journal == d.journal && d'.present == d.present
    && (forall i :: i in d'.parts || i in d'.verified ==> i in d.parts || i in d.verified)
    && (d.journal.Some? ==>
          forall i {:trigger d.journal.value.entries[i]} :: 0 <= i < |d.journal.value.entries| && d.journal.value.entries[i].p.Received? ==>
            FileSurvives(d.journal.value.entries[i], d, d', i))
  }

  /** Whatever a crash does, the stage can still be reopened. */
  lemma CrashIsRecoverable(sha: Content -> Digest, m: seq<Identity>, d: Disk, d': Disk)
    requires Recoverable(sha, m, d) && Crash(d, d')
    ensures Recoverable(sha, m, d')
  {
    var es := d.journal.value.entries;
    forall i | 0 <= i < |es| ensures FileHeld(sha, es[i], d', i) {
      EntryFacts(sha, m, d.journal.value, i);
      SurvivorIsHeld(sha, es[i], d, d', i);
    }
    assert forall i :: i in d'.parts ==> i < |es|;
    forall a, b | 0 <= a < b < |es| && es[a].id.kind == File && es[a].p.Received? && !es[a].p.completed ensures b !in d'.parts {
      LaterUntouched(sha, m, d, a, b);
    }
  }

  lemma EntryFacts(sha: Content -> Digest, m: seq<Identity>, j: Journal, i: nat)
    requires StageJournal(sha, m, j) && i < |j.entries|
    ensures |m| == |j.entries| && j.entries[i].id == m[i] && Uint(j.generation) && Uint(j.updatedNs)
    ensures ShapeOk(Incoming, i, j.entries[i]) && GeometryOk(sha([]), j.entries[i])
    ensures EntriesValid(sha([]), Incoming, j.entries)
    ensures TotalsOf(j.entries) == Totals(j.totalSize, j.fileCount, j.directoryCount)
  {
    ValidMeansNoFault(sha([]), Incoming, j.entries);
    assert Identities(j.entries)[i] == j.entries[i].id;
  }

  lemma SurvivorIsHeld(sha: Content -> Digest, e: Entry, d: Disk, d': Disk, i: nat)
    requires e.p.Received? && FileHeld(sha, e, d, i) && FileSurvives(e, d, d', i)
    requires e.id.kind == Directory ==> e.p.completed
    requires 0 <= e.p.durable
    ensures FileHeld(sha, e, d', i)
  {
  }

  /** After the first incomplete file nothing was ever started. */
  lemma LaterUntouched(sha: Content -> Digest, m: seq<Identity>, d: Disk, a: nat, b: nat)
    requires Recoverable(sha, m, d)
    requires var es := d.journal.value.entries; a < b < |es| && es[a].id.kind == File && !es[a].p.completed
    ensures b !in d.parts && b !in d.verified
    ensures var e := d.journal.value.entries[b]; e.id.kind == File ==> !e.p.completed && e.p.durable == 0 == e.p.verified
  {
    var es := d.journal.value.entries;
    assert FileHeld(sha, es[b], d, b);
    if es[b].id.kind == File {
      CompletedFilesFormAPrefix(sha([]), d.journal.value, a, b);
    }
  }

  // ---------------------------------------------------------------- what a removal leaves

  /** What is there of a file is right, but it need not be there. */
  ghost predicate FileLeft(sha: Content -> Digest, e: Entry, d: Disk, i: nat)
    requires e.p.Received?
  {
    if e.id.kind == Directory then i !in d.parts && i !in d.verified
    else if e.p.completed then
      && !(i in d.parts && i in d.verified)
      && (i in d.parts ==> Whole(sha, e, d.parts[i])) && (i in d.verified ==> Whole(sha, e, d.verified[i]))
    else i !in d.verified && (i in d.parts ==> Prefixed(sha, e, d.parts[i]))
  }

  /** A recoverable stage from which files, and then the directory, may have been removed. */
  ghost predicate Leftover(sha: Content -> Digest, m: seq<Identity>, d: Disk) {
    && d.journal.Some? && StageJournal(sha, m, d.journal.value) && NothingAhead(d.journal.value.entries, d)
    && (forall i {:trigger FileLeft(sha, d.journal.value.entries[i], d, i)} :: 0 <= i < |d.journal.value.entries| ==>
          FileLeft(sha, d.journal.value.entries[i], d, i))
    && (!d.present ==> d.parts == map[] && d.verified == map[])
  }

  /** The file is there if the journal counts on any byte of it. */
  predicate FileThere(e: Entry, d: Disk, i: nat) {
    e.id.kind == File && e.p.Received? ==>
      (e.p.completed ==> i in d.parts || i in d.verified) && (!e.p.completed && e.p.durable > 0 ==> i in d.parts)
  }

  /** Everything the journal counts on is there: its files, and the directory unless nothing was ever
      recorded. */
  predicate StillThere(d: Disk)
    requires d.journal.Some?
  {
    && (d.present || Pristine(d.journal.value))
    && forall i {:trigger FileThere(d.journal.value.entries[i], d, i)} :: 0 <= i < |d.journal.value.entries| ==>
         FileThere(d.journal.value.entries[i], d, i)
  }

  lemma RecoverableIs(sha: Content -> Digest, m: seq<Identity>, d: Disk)
    ensures Recoverable(sha, m, d) <==> Leftover(sha, m, d) && StillThere(d)
  {
    if d.journal.Some? && StageJournal(sha, m, d.journal.value) {
      var es := d.journal.value.entries;
      forall i | 0 <= i < |es|
        ensures FileHeld(sha, es[i], d, i) <==> FileLeft(sha, es[i], d, i) && FileThere(es[i], d, i)
      {
      }
      hide FileHeld, FileLeft, FileThere, StageJournal, NothingAhead;
      if Recoverable(sha, m, d) {
        forall i | 0 <= i < |es| ensures FileLeft(sha, es[i], d, i) && FileThere(es[i], d, i) {
          assert FileHeld(sha, es[i], d, i);
        }
      }
      if Leftover(sha, m, d) && StillThere(d) {
        forall i | 0 <= i < |es| ensures FileHeld(sha, es[i], d, i) {
          assert FileLeft(sha, es[i], d, i) && FileThere(es[i], d, i);
        }
      }
    }
  }

  /** A disk from which files, and then the directory, were removed. */
  predicate Removing(d: Disk, d': Disk) {
    && d'.journal == d.journal && (d'.present ==> d.present) && (d.present && !d'.present ==> d'.parts == map[] && d'.verified == map[])
    && (forall i :: i in d'.parts ==> i in d.parts && d'.parts[i] == d.parts[i])
    && (forall i :: i in d'.verified ==> i in d.verified && d'.verified[i] == d.verified[i])
  }

  lemma RemovingKeeps(sha: Content -> Digest, m: seq<Identity>, d: Disk, d': Disk)
    requires Leftover(sha, m, d) && Removing(d, d')
    ensures Leftover(sha, m, d')
  {
    var es := d.journal.value.entries;
    hide StageJournal, Whole, Prefixed;
    forall i | 0 <= i < |es| ensures FileLeft(sha, es[i], d', i) {
      JournalReceived(sha, m, d.journal.value, i);
      assert FileLeft(sha, es[i], d, i);
    }
    forall a, b | 0 <= a < b < |es| && es[a].id.kind == File && es[a].p.Received? && !es[a].p.completed ensures b !in d'.parts {
      assert b !in d.parts;
    }
    if !d.present {
      assert d'.parts == map[] && d'.verified == map[];
    }
  }

  /** A crash changes neither what is right nor what is missing. */
  lemma CrashKeepsLeftover(sha: Content -> Digest, m: seq<Identity>, d: Disk, d': Disk)
    requires Leftover(sha, m, d) && Crash(d, d')
    ensures Leftover(sha, m, d') && (StillThere(d') <==> StillThere(d))
  {
    var es := d.journal.value.entries;
    forall i | 0 <= i < |es| ensures FileLeft(sha, es[i], d', i) && (FileThere(es[i], d', i) <==> FileThere(es[i], d, i)) {
      EntryFacts(sha, m, d.journal.value, i);
      JournalReceived(sha, m, d.journal.value, i);
      assert FileLeft(sha, es[i], d, i) && FileSurvives(es[i], d, d', i);
    }
    hide StageJournal, FileLeft, FileThere;
    forall a, b | 0 <= a < b < |es| && es[a].id.kind == File && es[a].p.Received? && !es[a].p.completed ensures b !in d'.parts {
      LeftoverUntouched(sha, m, d, a, b);
      assert FileSurvives(es[b], d, d', b);
    }
    if !d.present {
      assert d'.parts == map[] && d'.verified == map[];
    }
    if StillThere(d) {
      forall i | 0 <= i < |es| ensures FileThere(es[i], d', i) {
        assert FileThere(es[i], d, i);
      }
    }
    if StillThere(d') {
      forall i | 0 <= i < |es| ensures FileThere(es[i], d, i) {
        assert FileThere(es[i], d', i);
      }
    }
  }

  lemma LeftoverUntouched(sha: Content -> Digest, m: seq<Identity>, d: Disk, a: nat, b: nat)
    requires Leftover(sha, m, d) && a < b < |d.journal.value.entries|
    requires var e := d.journal.value.entries[a]; e.id.kind == File && !e.p.completed
    ensures b !in d.parts && b !in d.verified && d.journal.value.entries[b].p.Received?
    ensures var e := d.journal.value.entries[b]; e.id.kind == File ==> !e.p.completed && e.p.durable == 0
  {
    var es := d.journal.value.entries;
    EntryFacts(sha, m, d.journal.value, a);
    assert FileLeft(sha, es[b], d, b);
    if es[b].id.kind == File {
      CompletedFilesFormAPrefix(sha([]), d.journal.value, a, b);
    }
  }

  // ---------------------------------------------------------------- recording progress

  /** All files before `i` are complete, and `i` is a file that is not. */
  predicate FirstOpen(es: seq<Entry>, i: nat) {
    && i < |es| && es[i].id.kind == File && es[i].p.Received? && !es[i].p.completed
    && forall k :: 0 <= k < i && es[k].id.kind == File ==> es[k].p.Received? && es[k].p.completed
  }

  /** The progress the stage records: every byte written so far is durable and hashes to `digest`. */
  function Recorded(e: Entry, offset: int, digest: Digest, completed: bool): Progress {
    Received(offset, offset, if offset != 0 || completed then Some(digest) else None, completed,
             if completed then Some(digest) else None, Partial)
  }

  lemma {:induction false} TotalsSame(a: seq<Entry>, b: seq<Entry>)
    requires |a| == |b| && forall i :: 0 <= i < |a| ==> a[i].id == b[i].id
    ensures TotalsOf(a) == TotalsOf(b)
  {
    if a != [] {
      var n := |a| - 1;
      assert forall i :: 0 <= i < n ==> a[..n][i].id == b[..n][i].id;
      TotalsSame(a[..n], b[..n]);
    }
  }

  /** Replacing the first open entry by another valid state of the same file keeps the list valid. */
  lemma UpdateKeepsValid(empty: Digest, es: seq<Entry>, i: nat, p: Progress)
    requires EntriesValid(empty, Incoming, es) && FirstOpen(es, i)
    requires var e := es[i].(p := p); ShapeOk(Incoming, i, e) && GeometryOk(empty, e)
    ensures EntriesValid(empty, Incoming, es[i := es[i].(p := p)])
  {
    var es' := es[i := es[i].(p := p)];
    TotalsSame(es, es');
    forall k | 0 <= k < |es'| ensures ShapeOk(Incoming, k, es'[k]) && GeometryOk(empty, es'[k]) {
      assert k != i ==> ShapeOk(Incoming, k, es[k]) && GeometryOk(empty, es[k]);
    }
    forall a, b | 0 <= a < b < |es'| && es'[a].id.kind == File && es'[b].id.kind == File && HasProgress(es'[b])
      ensures Through(es'[a])
    {
      assert ShapeOk(Incoming, a, es[a]) && ShapeOk(Incoming, b, es[b]);
      if b != i {
        assert HasProgress(es[b]) && Through(es[a]);
      }
    }
  }

  /** The header of the next generation stays in range while the clock and the counters do. */
  predicate RoomFor(j: Journal, nowNs: int) {
    j.generation < UINT64_MAX && nowNs <= UINT64_MAX
  }

  lemma NextIsOk(empty: Digest, j: Journal, es: seq<Entry>, state: State, retry: int, nowNs: int)
    requires JournalOk(empty, j) && j.direction == Incoming && RoomFor(j, nowNs) && Uint(retry)
    requires EntriesValid(empty, Incoming, es) && TotalsOf(es) == TotalsOf(j.entries)
    requires state == Completed ==> forall i :: 0 <= i < |es| ==> Published(es[i])
    ensures var r := NextJournal(empty, j, es, state, retry, nowNs);
      && r.Ok? && JournalOk(empty, r.value) && r.value.entries == es && r.value.state == state && r.value.retryCount == retry
      && r.value.generation == j.generation + 1 && r.value.direction == j.direction && r.value.schema == j.schema
  {
    ValidMeansNoFault(empty, Incoming, es);
  }

  lemma {:induction false} EntriesStep(a: seq<Entry>, b: seq<Entry>)
    requires |a| == |b| && forall i :: 0 <= i < |a| ==> EntryTransitionFault(Incoming, a[i], b[i]).None?
    ensures EntriesTransitionFault(Incoming, a, b).None?
  {
    if a != [] {
      EntriesStep(a[1..], b[1..]);
    }
  }

  /** The bytes on disk for the open file: at least its durable prefix, at most the file. */
  ghost predicate OpenContent(sha: Content -> Digest, e: Entry, c: Content, completed: bool)
    requires e.p.Received?
  {
    && Prefixed(sha, e, c) && |c| <= e.id.size && (completed ==> |c| == e.id.size)
    && (!completed && 0 < e.id.size == |c| ==> Mismatch(e, sha(c)))
  }

  /** Progress can be recorded unless there is none, or it would complete a file the manifest gives
      another hash. */
  predicate Recordable(sha: Content -> Digest, e: Entry, c: Content, completed: bool) {
    if completed then !Mismatch(e, sha(c)) else c != []
  }

  lemma RecordedGeometry(sha: Content -> Digest, e: Entry, i: nat, c: Content, completed: bool)
    requires ShapeOk(Incoming, i, e) && GeometryOk(sha([]), e) && e.id.kind == File && !e.p.completed
    requires OpenContent(sha, e, c, completed)
    ensures var e' := OpenEntry(sha, e, c, completed);
      && ShapeOk(Incoming, i, e') && (GeometryOk(sha([]), e') <==> Recordable(sha, e, c, completed))
      && (Recordable(sha, e, c, completed) ==> EntryTransitionFault(Incoming, e, e').None?)
  {
    assert c[..|c|] == c;
    if |c| == 0 {
      assert c == [];
    }
  }

  function WithJournal(d: Disk, j: Journal): Disk {
    d.(journal := Some(j))
  }

  /** The open entry after its progress was recorded. */
  function OpenEntry(sha: Content -> Digest, e: Entry, c: Content, completed: bool): Entry {
    e.(p := Recorded(e, |c|, sha(c), completed))
  }

  lemma RecordedIsHeld(sha: Content -> Digest, e: Entry, d: Disk, i: nat, c: Content, completed: bool)
    requires e.p.Received? && e.id.kind == File && !e.p.completed && FileHeld(sha, e, d, i)
    requires i in d.parts && d.parts[i] == c && OpenContent(sha, e, c, completed)
    ensures FileHeld(sha, OpenEntry(sha, e, c, completed), d, i) && Definite(OpenEntry(sha, e, c, completed))
  {
    assert c[..|c|] == c;
  }

  /** The journal update of a checkpoint, whatever the clock says, while there is room for it. */
  function Checkpointed(sha: Content -> Digest, j: Journal, i: nat, c: Content, completed: bool, nowNs: int): Result<Journal, Code>
    requires i < |j.entries|
  {
    UpdateIncoming(sha([]), j, i, Recorded(j.entries[i], |c|, sha(c), completed), Some(Transferring), nowNs)
  }

  ghost predicate CheckpointReady(sha: Content -> Digest, m: seq<Identity>, d: Disk, i: nat, completed: bool, nowNs: int) {
    && Recoverable(sha, m, d) && d.present
    && var j := d.journal.value;
    && !Terminal(j.state) && FirstOpen(j.entries, i) && i in d.parts && RoomFor(j, nowNs)
    && OpenContent(sha, j.entries[i], d.parts[i], completed)
  }

  lemma CheckpointEntries(sha: Content -> Digest, m: seq<Identity>, d: Disk, i: nat, completed: bool, nowNs: int)
    requires CheckpointReady(sha, m, d, i, completed, nowNs) && Recordable(sha, d.journal.value.entries[i], d.parts[i], completed)
    ensures var j := d.journal.value; var es := j.entries; var es' := es[i := OpenEntry(sha, es[i], d.parts[i], completed)];
      && EntriesValid(sha([]), Incoming, es') && TotalsOf(es') == TotalsOf(es)
      && EntriesTransitionFault(Incoming, es, es').None?
  {
    var j := d.journal.value;
    var es := j.entries;
    EntryFacts(sha, m, j, i);
    RecordedGeometry(sha, es[i], i, d.parts[i], completed);
    hide Recoverable, StageJournal, OpenContent, ShapeOk, GeometryOk;
    UpdateKeepsValid(sha([]), es, i, Recorded(es[i], |d.parts[i]|, sha(d.parts[i]), completed));
    var es' := es[i := OpenEntry(sha, es[i], d.parts[i], completed)];
    TotalsSame(es, es');
    forall k | 0 <= k < |es| ensures EntryTransitionFault(Incoming, es[k], es'[k]).None? {
    }
    EntriesStep(es, es');
  }

  /** A checkpoint of the open file is accepted by the journal's own rules exactly when there is
      progress to record; otherwise the update itself is invalid. */
  lemma CheckpointStep(sha: Content -> Digest, m: seq<Identity>, d: Disk, i: nat, completed: bool, nowNs: int)
    requires CheckpointReady(sha, m, d, i, completed, nowNs)
    ensures i < |d.journal.value.entries|
    ensures var j := d.journal.value; var r := Checkpointed(sha, j, i, d.parts[i], completed, nowNs);
      if !Recordable(sha, j.entries[i], d.parts[i], completed) then r == Err(InvalidGeometry)
      else
        && r.Ok? && JournalOk(sha([]), r.value) && TransitionFault(j, r.value).None?
        && r.value.entries == j.entries[i := OpenEntry(sha, j.entries[i], d.parts[i], completed)]
        && r.value.state == Transferring && r.value.direction == Incoming && r.value.schema == 2
        && r.value.retryCount == j.retryCount && r.value.generation == j.generation + 1
  {
    var j := d.journal.value;
    var c := d.parts[i];
    EntryFacts(sha, m, j, i);
    if !Recordable(sha, j.entries[i], c, completed) {
      BadCheckpointInvalid(sha, m, d, i, completed, nowNs);
    } else {
      CheckpointEntries(sha, m, d, i, completed, nowNs);
      StateAllowsTransfer(sha, m, d, i);
      hide Recoverable, FirstOpen, OpenContent, EntriesValid, TotalsOf, StageJournal;
      NextIsOk(sha([]), j, j.entries[i := OpenEntry(sha, j.entries[i], c, completed)], Transferring, j.retryCount, nowNs);
    }
  }

  lemma StateAllowsTransfer(sha: Content -> Digest, m: seq<Identity>, d: Disk, i: nat)
    requires Recoverable(sha, m, d) && !Terminal(d.journal.value.state) && FirstOpen(d.journal.value.entries, i)
    ensures Transferring in Successors(d.journal.value.state)
  {
    hide FilesHeld, NothingAhead;
  }

  lemma BadCheckpointInvalid(sha: Content -> Digest, m: seq<Identity>, d: Disk, i: nat, completed: bool, nowNs: int)
    requires CheckpointReady(sha, m, d, i, completed, nowNs)
    requires !Recordable(sha, d.journal.value.entries[i], d.parts[i], completed)
    ensures i < |d.journal.value.entries|
    ensures Checkpointed(sha, d.journal.value, i, d.parts[i], completed, nowNs) == Err(InvalidGeometry)
  {
    var j := d.journal.value;
    var c := d.parts[i];
    var es' := WithProgress(j, i, Recorded(j.entries[i], |c|, sha(c), completed));
    EntryFacts(sha, m, j, i);
    RecordedGeometry(sha, j.entries[i], i, c, completed);
    BadEntryInvalid(sha, j.entries, es', i);
  }

  lemma BadEntryInvalid(sha: Content -> Digest, es: seq<Entry>, es': seq<Entry>, i: nat)
    requires EntriesValid(sha([]), Incoming, es) && i < |es| == |es'| && es[i].id.kind == File
    requires es'[i].id == es[i].id && es' == es[i := es'[i]] && ShapeOk(Incoming, i, es'[i]) && !GeometryOk(sha([]), es'[i])
    ensures EntriesFault(sha([]), Incoming, es') == Some(InvalidGeometry)
  {
    PrefixValid(sha([]), Incoming, es, i);
    assert es'[..i] == es[..i];
    TotalsUpTo(es, i + 1);
    TotalsSame(es[..i + 1], es'[..i + 1]);
    assert es'[..i + 1][..i] == es'[..i];
    FaultOfPrefix(sha([]), Incoming, es', i);
  }

  lemma {:induction false} TotalsUpTo(es: seq<Entry>, k: nat)
    requires k <= |es| && forall i :: 0 <= i < |es| ==> es[i].id.size >= 0
    ensures TotalsOf(es[..k]).size <= TotalsOf(es).size
  {
    if k < |es| {
      var n := |es| - 1;
      TotalsUpTo(es[..n], k);
      assert es[..n][..k] == es[..k];
    } else {
      assert es[..k] == es;
    }
  }

  // ---------------------------------------------------------------- every persistent step keeps the stage recoverable

  /** Storing a journal whose entries the disk bears out. */
  lemma JournalKeepsRecoverable(sha: Content -> Digest, m: seq<Identity>, d: Disk, next: Journal)
    requires Recoverable(sha, m, d) && d.present && StageJournal(sha, m, next)
    requires FilesHeld(sha, next.entries, d)
    requires |next.entries| == |d.journal.value.entries|
    requires forall k :: 0 <= k < |next.entries| && !next.entries[k].p.completed ==> !d.journal.value.entries[k].p.completed
    requires forall k :: 0 <= k < |next.entries| ==> next.entries[k].id == d.journal.value.entries[k].id
    ensures Recoverable(sha, m, WithJournal(d, next))
  {
    var d' := WithJournal(d, next);
    assert forall k :: 0 <= k < |next.entries| ==> next.entries[k].p.Received?;
    hide StageJournal;
    forall k | 0 <= k < |next.entries| ensures FileHeld(sha, next.entries[k], d', k) {
      assert FileHeld(sha, next.entries[k], d, k);
    }
    assert NothingAhead(next.entries, d') by {
      forall a, b | 0 <= a < b < |next.entries| && next.entries[a].id.kind == File && next.entries[a].p.Received? && !next.entries[a].p.completed
        ensures b !in d.parts
      {
        JournalReceived(sha, m, d.journal.value, a);
        assert d.journal.value.entries[a].id.kind == File;
      }
    }
  }

  lemma JournalReceived(sha: Content -> Digest, m: seq<Identity>, j: Journal, k: nat)
    requires StageJournal(sha, m, j) && k < |j.entries|
    ensures j.entries[k].p.Received?
  {
  }

  lemma CheckpointRecoverable(sha: Content -> Digest, m: seq<Identity>, d: Disk, i: nat, completed: bool, nowNs: int)
    requires CheckpointReady(sha, m, d, i, completed, nowNs) && Recordable(sha, d.journal.value.entries[i], d.parts[i], completed)
    ensures i < |d.journal.value.entries|
    ensures var r := Checkpointed(sha, d.journal.value, i, d.parts[i], completed, nowNs);
      r.Ok? && Recoverable(sha, m, WithJournal(d, r.value))
  {
    hide OpenContent, Recordable, Checkpointed, OpenEntry, FileHeld, JournalOk, TransitionFault;
    var j := d.journal.value;
    CheckpointStep(sha, m, d, i, completed, nowNs);
    var next := Checkpointed(sha, j, i, d.parts[i], completed, nowNs).value;
    EntryFacts(sha, m, j, i);
    RecordedIsHeld(sha, j.entries[i], d, i, d.parts[i], completed);
    assert forall k :: 0 <= k < |j.entries| ==> j.entries[k].id == next.entries[k].id by { OpenEntryId(sha, j.entries[i], d.parts[i], completed); }
    assert Identities(next.entries) == m;
    forall k | 0 <= k < |next.entries| ensures next.entries[k].p.Received? && Definite(next.entries[k]) {
      assert k != i ==> next.entries[k] == j.entries[k];
      OpenEntryId(sha, j.entries[i], d.parts[i], completed);
    }
    forall k | 0 <= k < |next.entries| ensures FileHeld(sha, next.entries[k], d, k) {
      assert k != i ==> FileHeld(sha, j.entries[k], d, k);
    }
    JournalKeepsRecoverable(sha, m, d, next);
  }

  lemma OpenEntryId(sha: Content -> Digest, e: Entry, c: Content, completed: bool)
    ensures OpenEntry(sha, e, c, completed).id == e.id && OpenEntry(sha, e, c, completed).p.Received?
  {
  }

  /** A state-only update. */
  lemma StateStep(sha: Content -> Digest, m: seq<Identity>, d: Disk, state: State, retry: Option<int>, nowNs: int)
    requires Recoverable(sha, m, d) && d.present && RoomFor(d.journal.value, nowNs)
    requires retry.Some? ==> Uint(retry.value) && d.journal.value.retryCount <= retry.value
    requires state in {Verifying, Finalizing} ==> AllComplete(d.journal.value.entries)
    requires state == Completed ==> forall i :: 0 <= i < |d.journal.value.entries| ==> Published(d.journal.value.entries[i])
    ensures var j := d.journal.value; var r := UpdateState(sha([]), j, state, retry, nowNs);
      && r.Ok? && Recoverable(sha, m, WithJournal(d, r.value)) && r.value.entries == j.entries && r.value.state == state
      && (TransitionFault(j, r.value).None? <==> MayTurn(j.state, state))
      && r.value.generation == j.generation + 1
  {
    var j := d.journal.value;
    ValidMeansNoFault(sha([]), Incoming, j.entries);
    NextIsOk(sha([]), j, j.entries, state, if retry.Some? then retry.value else j.retryCount, nowNs);
    var next := UpdateState(sha([]), j, state, retry, nowNs).value;
    SameEntriesStep(sha, m, j);
    SuccessorsTable(j.state, state);
    hide JournalOk, Successors, MayTurn, EntriesTransitionFault;
    assert StageJournal(sha, m, next);
    JournalKeepsRecoverable(sha, m, d, next);
  }

  lemma SameEntriesStep(sha: Content -> Digest, m: seq<Identity>, j: Journal)
    requires StageJournal(sha, m, j)
    ensures EntriesTransitionFault(Incoming, j.entries, j.entries).None?
  {
    forall k | 0 <= k < |j.entries| ensures EntryTransitionFault(Incoming, j.entries[k], j.entries[k]).None? {
    }
    EntriesStep(j.entries, j.entries);
  }

  // ---- the files themselves

  /** A part is created only for the first open file. */
  lemma CreateKeeps(sha: Content -> Digest, m: seq<Identity>, d: Disk, i: nat)
    requires Recoverable(sha, m, d) && d.present && FirstOpen(d.journal.value.entries, i) && i !in d.parts
    ensures d.journal.value.entries[i].p.durable == 0
    ensures Recoverable(sha, m, d.(parts := d.parts[i := []]))
  {
    var es := d.journal.value.entries;
    var d' := d.(parts := d.parts[i := []]);
    EntryFacts(sha, m, d.journal.value, i);
    assert FileHeld(sha, es[i], d, i);
    hide StageJournal, Whole;
    forall k | 0 <= k < |es| ensures FileHeld(sha, es[k], d', k) {
      assert k != i ==> FileHeld(sha, es[k], d, k);
    }
  }

  /** Bytes are only ever appended to the part of the first open file. */
  lemma AppendKeeps(sha: Content -> Digest, m: seq<Identity>, d: Disk, i: nat, payload: Content)
    requires Recoverable(sha, m, d) && d.present && FirstOpen(d.journal.value.entries, i) && i in d.parts
    ensures Recoverable(sha, m, d.(parts := d.parts[i := d.parts[i] + payload]))
  {
    var es := d.journal.value.entries;
    var d' := d.(parts := d.parts[i := d.parts[i] + payload]);
    assert FileHeld(sha, es[i], d, i);
    assert 0 <= es[i].p.durable <= |d.parts[i]| ==> d'.parts[i][..es[i].p.durable] == d.parts[i][..es[i].p.durable];
    hide StageJournal, Whole;
    forall k | 0 <= k < |es| ensures FileHeld(sha, es[k], d', k) {
      assert k != i ==> FileHeld(sha, es[k], d, k);
    }
  }

  /** Reopening cuts a part back to its durable length, or a complete file to its size. */
  lemma TruncateKeeps(sha: Content -> Digest, m: seq<Identity>, d: Disk, i: nat)
    requires Recoverable(sha, m, d) && d.present && FirstOpen(d.journal.value.entries, i) && i in d.parts
    ensures var e := d.journal.value.entries[i];
      0 <= e.p.durable <= |d.parts[i]| && Recoverable(sha, m, d.(parts := d.parts[i := d.parts[i][..e.p.durable]]))
  {
    var es := d.journal.value.entries;
    assert FileHeld(sha, es[i], d, i);
    var c := d.parts[i][..es[i].p.durable];
    var d' := d.(parts := d.parts[i := c]);
    assert c[..es[i].p.durable] == c;
    hide StageJournal, Whole;
    forall k | 0 <= k < |es| ensures FileHeld(sha, es[k], d', k) {
      assert k != i ==> FileHeld(sha, es[k], d, k);
    }
  }

  function Renamed(d: Disk, i: nat): Disk
    requires i in d.parts
  {
    d.(parts := d.parts - {i}, verified := d.verified[i := d.parts[i]])
  }

  /** Only complete files are renamed to their verified name. */
  lemma RenameKeeps(sha: Content -> Digest, m: seq<Identity>, d: Disk, i: nat)
    requires Recoverable(sha, m, d) && d.present && i in d.parts && i < |d.journal.value.entries|
    requires d.journal.value.entries[i].p.Received? && d.journal.value.entries[i].p.completed
    ensures Recoverable(sha, m, Renamed(d, i))
  {
    var es := d.journal.value.entries;
    var d' := Renamed(d, i);
    assert FileHeld(sha, es[i], d, i);
    hide StageJournal, Whole;
    forall k | 0 <= k < |es| ensures FileHeld(sha, es[k], d', k) {
      assert k != i ==> FileHeld(sha, es[k], d, k);
    }
  }

  // ---------------------------------------------------------------- publication to the verified name

  /** Some complete files are now recorded under their verified name; nothing else changed. */
  ghost predicate StorageOnly(es: seq<Entry>, es': seq<Entry>) {
    && |es| == |es'|
    && forall k {:trigger es'[k]} :: 0 <= k < |es| ==>
         es'[k] == es[k] || (es[k].id.kind == File && es[k].p.Received? && es[k].p.completed && es'[k] == VerifiedEntry(es[k]))
  }

  lemma StorageKeepsValid(empty: Digest, es: seq<Entry>, es': seq<Entry>)
    requires EntriesValid(empty, Incoming, es) && StorageOnly(es, es')
    ensures EntriesValid(empty, Incoming, es') && TotalsOf(es') == TotalsOf(es) && EntriesTransitionFault(Incoming, es, es').None?
  {
    forall k | 0 <= k < |es'|
      ensures es'[k].id == es[k].id && ShapeOk(Incoming, k, es'[k]) && GeometryOk(empty, es'[k])
        && EntryTransitionFault(Incoming, es[k], es'[k]).None? && HasProgress(es'[k]) == HasProgress(es[k]) && Through(es'[k]) == Through(es[k])
    {
      assert ShapeOk(Incoming, k, es[k]) && GeometryOk(empty, es[k]);
    }
    TotalsSame(es, es');
    EntriesStep(es, es');
  }

  /** Storing such a journal is allowed and keeps the stage recoverable. */
  lemma StorageStep(sha: Content -> Digest, m: seq<Identity>, d: Disk, es': seq<Entry>, nowNs: int)
    requires Recoverable(sha, m, d) && d.present && RoomFor(d.journal.value, nowNs) && !Terminal(d.journal.value.state)
    requires StorageOnly(d.journal.value.entries, es')
    ensures var j := d.journal.value; var r := NextJournal(sha([]), j, es', j.state, j.retryCount, nowNs);
      && r.Ok? && TransitionFault(j, r.value).None? && Recoverable(sha, m, WithJournal(d, r.value)) && r.value.entries == es'
      && r.value.state == j.state && r.value.generation == j.generation + 1
  {
    hide EntriesValid, FilesHeld, StorageOnly, NothingAhead;
    var j := d.journal.value;
    var es := j.entries;
    ValidMeansNoFault(sha([]), Incoming, es);
    StorageKeepsValid(sha([]), es, es');
    NextIsOk(sha([]), j, es', j.state, j.retryCount, nowNs);
    var next := NextJournal(sha([]), j, es', j.state, j.retryCount, nowNs).value;
    StorageHeld(sha, m, d, es');
    StorageJournal(sha, m, j, next);
    JournalKeepsRecoverable(sha, m, d, next);
  }

  lemma StorageJournal(sha: Content -> Digest, m: seq<Identity>, j: Journal, next: Journal)
    requires StageJournal(sha, m, j) && JournalOk(sha([]), next) && StorageOnly(j.entries, next.entries)
    requires next.direction == Incoming && next.schema == 2 && next.state == j.state
    ensures StageJournal(sha, m, next)
  {
    hide JournalOk;
    assert Identities(next.entries) == m;
  }

  lemma StorageHeld(sha: Content -> Digest, m: seq<Identity>, d: Disk, es': seq<Entry>)
    requires Recoverable(sha, m, d) && StorageOnly(d.journal.value.entries, es')
    ensures forall k :: 0 <= k < |es'| ==> es'[k].p.Received? && Definite(es'[k]) && es'[k].id == d.journal.value.entries[k].id
    ensures forall k :: 0 <= k < |es'| ==> es'[k].p.completed == d.journal.value.entries[k].p.completed
    ensures FilesHeld(sha, es', d)
  {
    var es := d.journal.value.entries;
    forall k | 0 <= k < |es'|
      ensures es'[k].p.Received? && Definite(es'[k]) && es'[k].id == es[k].id && es'[k].p.completed == es[k].p.completed && FileHeld(sha, es'[k], d, k)
    {
      assert FileHeld(sha, es[k], d, k);
    }
  }

  predicate FinalizeReady(j: Journal, hashes: map<int, Digest>) {
    && j.state == Finalizing && hashes.Keys == FileIndices(j.entries)
    && forall i :: i in FileIndices(j.entries) ==> Evidenced(j.entries[i], hashes[i])
  }

  /** The one journal generation that records every file as verified is accepted exactly when the
      journal is finalizing and the sender's hashes are the durable ones of exactly its files. */
  lemma FinalizeExactly(sha: Content -> Digest, m: seq<Identity>, d: Disk, hashes: map<int, Digest>, nowNs: int)
    requires Recoverable(sha, m, d) && d.present && RoomFor(d.journal.value, nowNs)
    ensures var j := d.journal.value; var r := FinalizeIncoming(sha([]), j, hashes, nowNs);
      && (r.Ok? <==> FinalizeReady(j, hashes))
      && (r.Ok? ==>
            && TransitionFault(j, r.value).None? && Recoverable(sha, m, WithJournal(d, r.value))
            && r.value.state == Finalizing && r.value.entries == AllVerified(j.entries)
            && forall i :: 0 <= i < |j.entries| ==> Published(r.value.entries[i]))
  {
    var j := d.journal.value;
    if FinalizeReady(j, hashes) {
      assert StorageOnly(j.entries, AllVerified(j.entries));
      StorageStep(sha, m, d, AllVerified(j.entries), nowNs);
    }
  }

  // ---------------------------------------------------------------- a new transfer

  function NewEntry(id: Identity): Entry {
    Entry(id, if id.kind == Directory then Received(0, 0, None, true, None, DirectoryStorage)
              else Received(0, 0, None, false, None, Missing))
  }

  function NewEntries(m: seq<Identity>): seq<Entry> {
    seq(|m|, i requires 0 <= i < |m| => NewEntry(m[i]))
  }

  function NewIncoming(transfer: TransferId, binding: Binding, m: seq<Identity>, createdNs: int): Journal {
    var t := TotalsOf(NewEntries(m));
    Journal(2, Incoming, transfer, 0, binding, t.size, t.files, t.directories, createdNs, createdNs, Created, 0, NewEntries(m))
  }

  /** The journal of a new transfer is one a stage can start from, for every manifest whose entries are
      in order and whose sizes fit. */
  lemma NewIsStageJournal(sha: Content -> Digest, transfer: TransferId, binding: Binding, m: seq<Identity>, createdNs: int)
    requires |m| <= MAX_ENTRIES && 0 <= createdNs <= UINT64_MAX && TotalsOf(NewEntries(m)).size <= UINT64_MAX
    requires forall i :: 0 <= i < |m| ==>
      m[i].index == i && Uint(m[i].size) && (m[i].kind == Directory ==> m[i].size == 0 && m[i].expected.None?)
    ensures var j := NewIncoming(transfer, binding, m, createdNs); StageJournal(sha, m, j) && Pristine(j)
  {
    hide EntriesFault;
    var j := NewIncoming(transfer, binding, m, createdNs);
    var es := j.entries;
    forall i | 0 <= i < |es| ensures ShapeOk(Incoming, i, es[i]) && GeometryOk(sha([]), es[i]) {
    }
    TotalsUpTo(es, 0);
    TotalsCount(es);
    assert EntriesValid(sha([]), Incoming, es);
    ValidMeansNoFault(sha([]), Incoming, es);
    assert Identities(es) == m;
    hide TotalsOf;
    assert JournalOk(sha([]), j);
  }
}
