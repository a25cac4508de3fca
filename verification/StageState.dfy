/** The receiver's volatile state beside its disk, and what ties the two together. */
module StageState {
  import opened Common
  import opened Staging
  import J = ResumeJournal
  import T = TransferControl

  datatype Phase = Receiving | Finalizing | Completed | Paused | WaitingReconnect | Cancelled | Failed | Purged

  /** `file` is the open part, `hashed` the bytes its hasher has seen. */
  datatype Stage = Stage(
    disk: Disk, journal: Option<J.Journal>, phase: Phase,
    next: nat, file: Option<nat>, offset: nat, hashed: Content, hashes: map<int, Digest>, bytesDone: int)

  predicate IsFile(m: seq<J.Identity>, i: int) {
    0 <= i < |m| && m[i].kind == J.File
  }

  /** Sizes of the complete files. */
  function DoneBytes(es: seq<J.Entry>): int {
    if es == [] then 0
    else DoneBytes(es[..|es| - 1]) + (var e := es[|es| - 1]; if e.id.kind == J.File && Through(e) then e.id.size else 0)
  }

  predicate Through(e: J.Entry) {
    e.p.Received? && e.p.completed
  }

  /** Nothing of this transfer is left to resume. */
  predicate Ended(d: Disk) {
    d.journal.None? || d.journal.value.state in {J.Completed, J.Purging}
  }

  ghost predicate Sound(sha: Content -> Digest, m: seq<J.Identity>, d: Disk) {
    Recoverable(sha, m, d) || Ended(d)
  }

  /** The journal in memory is the stored one, or an older generation after a failed commit. */
  predicate Owned(s: Stage) {
    s.journal.Some? && s.disk.journal.Some? && s.journal.value.generation == s.disk.journal.value.generation ==>
      s.journal == s.disk.journal
  }

  /** The open part holds exactly what was hashed, from the start of the first incomplete file on. */
  ghost predicate OpenPart(sha: Content -> Digest, m: seq<J.Identity>, s: Stage)
    requires s.journal.Some?
  {
    var es := s.journal.value.entries;
    && s.next < |m| && s.file == Some(s.next) && FirstOpen(es, s.next)
    && s.next in s.disk.parts && s.disk.parts[s.next] == s.hashed && |s.hashed| == s.offset <= m[s.next].size
    && Prefixed(sha, es[s.next], s.hashed)
  }

  ghost predicate Core(sha: Content -> Digest, m: seq<J.Identity>, s: Stage) {
    && Recoverable(sha, m, s.disk) && s.disk.present && s.journal == s.disk.journal
    && !Terminal(s.journal.value.state) && s.next <= |m| == |s.journal.value.entries|
    && (forall i {:trigger s.journal.value.entries[i]} :: 0 <= i < |m| && IsFile(m, i) ==>
          (Through(s.journal.value.entries[i]) <==> i < s.next))
    && HashesOf(m, s) && Named(m, s)
    && (if s.file.Some? then OpenPart(sha, m, s) else s.offset == 0 && forall b :: b in s.disk.parts ==> b < s.next)
  }

  /** Every received byte is counted once: the complete files and the open one. */
  predicate Counted(s: Stage)
    requires s.journal.Some?
  {
    s.bytesDone == DoneBytes(s.journal.value.entries) + s.offset
  }

  /** The hashes kept in memory are the durable hashes of exactly the complete files. */
  ghost predicate HashesOf(m: seq<J.Identity>, s: Stage)
    requires s.journal.Some? && s.next <= |m| == |s.journal.value.entries|
  {
    && (forall i :: i in s.hashes <==> 0 <= i < s.next && IsFile(m, i))
    && (forall i :: i in s.hashes && 0 <= i < s.next ==>
          var p := s.journal.value.entries[i].p; p.Received? && p.receiver == Some(s.hashes[i]))
  }

  /** The complete files lie under the name the journal records. */
  ghost predicate Named(m: seq<J.Identity>, s: Stage)
    requires s.journal.Some? && s.next <= |m| == |s.journal.value.entries|
  {
    forall i {:trigger s.journal.value.entries[i]} :: 0 <= i < s.next && IsFile(m, i) && s.journal.value.entries[i].p.Received? ==>
      (s.journal.value.entries[i].p.storage == J.Verified <==> i in s.disk.verified)
  }

  /** Between two calls the stage waits for bytes of a file that lacks some, or has everything. A
      file with all its bytes stays open only when its completion could not be recorded. */
  ghost predicate Waiting(sha: Content -> Digest, m: seq<J.Identity>, s: Stage)
    requires s.journal.Some? && |m| == |s.journal.value.entries|
  {
    s.next < |m| ==>
      && IsFile(m, s.next)
      && (s.file.None? ==> m[s.next].size > 0)
      && (s.file.Some? && 0 < m[s.next].size == s.offset ==>
            Mismatch(s.journal.value.entries[s.next], sha(s.hashed)) || s.journal.value.generation == UINT64_MAX)
  }

  ghost predicate Live(sha: Content -> Digest, m: seq<J.Identity>, s: Stage) {
    Core(sha, m, s) && Waiting(sha, m, s) && Counted(s)
  }

  ghost predicate StageInv(sha: Content -> Digest, m: seq<J.Identity>, s: Stage) {
    && Rest(sha, m, s)
    && (if s.phase == Receiving then Live(sha, m, s) else s.file.None?)
  }

  /** What holds in every phase. Once its journal is forgotten a stage may have left anything behind. */
  ghost predicate Rest(sha: Content -> Digest, m: seq<J.Identity>, s: Stage) {
    && Owned(s)
    && ((Sound(sha, m, s.disk) && (s.disk.present || Ended(s.disk))) || (s.journal.None? && Leftover(sha, m, s.disk)))
  }

  /** The journal is the same, or progress of a file was recorded in it. */
  predicate Onward(a: Option<J.Journal>, b: Option<J.Journal>) {
    b == a || (b.Some? && b.value.state == J.Transferring)
  }

  /** Between two persistent states the stored journal stays, takes an allowed step, or goes. */
  predicate JournalStep(a: Option<J.Journal>, b: Option<J.Journal>) {
    b == a || b.None? || (a.Some? && J.TransitionFault(a.value, b.value).None?)
  }

  ghost predicate Chained(points: seq<Disk>) {
    forall i {:trigger points[i]} :: 0 < i < |points| ==> JournalStep(points[i - 1].journal, points[i].journal)
  }

  /** At most the names of one file differ: it was created, grown, cut, removed or renamed. */
  ghost predicate OneName(a: Disk, b: Disk, i: nat) {
    && b.journal == a.journal && b.present == a.present
    && (forall k :: k != i ==> (k in b.parts <==> k in a.parts) && (k in a.parts ==> k in b.parts && b.parts[k] == a.parts[k]))
    && (forall k :: k != i ==> (k in b.verified <==> k in a.verified) && (k in a.verified ==> k in b.verified && b.verified[k] == a.verified[k]))
    && (b.verified == a.verified || b.parts == a.parts
        || (i in a.parts && i !in b.parts && i !in a.verified && i in b.verified && b.verified[i] == a.parts[i]))
  }

  /** What one file system operation can do: replace or remove the journal, make or remove the empty
      directory, or change the name or the content of one file. */
  ghost predicate Atomic(a: Disk, b: Disk) {
    || b == a.(journal := b.journal)
    || (b == a.(present := b.present) && a.parts == map[] && a.verified == map[])
    || exists i :: OneName(a, b, i)
  }

  ghost predicate Stepwise(points: seq<Disk>) {
    forall i {:trigger points[i]} :: 0 < i < |points| ==> Atomic(points[i - 1], points[i])
  }

  lemma PointsGrow(points: seq<Disk>, next: Disk)
    requires points != [] && Chained(points) && Stepwise(points)
    requires JournalStep(points[|points| - 1].journal, next.journal) && Atomic(points[|points| - 1], next)
    ensures Chained(points + [next]) && Stepwise(points + [next])
  {
    hide JournalStep, Atomic;
  }

  lemma AtomicJournal(d: Disk, j: Option<J.Journal>)
    ensures Atomic(d, d.(journal := j))
  {
  }

  lemma AtomicDirectory(d: Disk, present: bool)
    requires d.parts == map[] && d.verified == map[]
    ensures Atomic(d, d.(present := present))
  {
  }

  lemma AtomicPart(d: Disk, i: nat, c: Content)
    ensures Atomic(d, d.(parts := d.parts[i := c]))
  {
    assert OneName(d, d.(parts := d.parts[i := c]), i);
  }

  lemma AtomicRemoval(d: Disk, i: nat)
    ensures Atomic(d, d.(parts := d.parts - {i})) && Atomic(d, d.(verified := d.verified - {i}))
  {
    assert OneName(d, d.(parts := d.parts - {i}), i) && OneName(d, d.(verified := d.verified - {i}), i);
  }

  lemma AtomicRename(d: Disk, i: nat)
    requires i in d.parts && i !in d.verified
    ensures Atomic(d, Renamed(d, i))
  {
    assert OneName(d, Renamed(d, i), i);
  }

  /** All that was stored since is in one state. */
  predicate Steady(state: J.State, before: seq<Disk>, after: seq<Disk>) {
    before <= after && forall i :: |before| <= i < |after| ==> after[i].journal.Some? && after[i].journal.value.state == state
  }

  lemma SteadyTrans(state: J.State, a: seq<Disk>, b: seq<Disk>, c: seq<Disk>)
    requires Steady(state, a, b) && Steady(state, b, c)
    ensures Steady(state, a, c)
  {
    forall i | |a| <= i < |c| ensures c[i].journal.Some? && c[i].journal.value.state == state {
      if i < |b| {
        assert c[i] == b[i];
      }
    }
  }

  lemma SteadySelf(state: J.State, a: seq<Disk>)
    ensures Steady(state, a, a)
  {
  }

  lemma Announced(state: J.State, a: seq<Disk>, b: seq<Disk>, next: Disk)
    requires b == a || b == a + [next]
    requires next.journal.Some? && next.journal.value.state == state
    ensures Steady(state, a, b)
  {
  }

  lemma SteadyStep(state: J.State, a: seq<Disk>, next: Disk)
    requires next.journal.Some? && next.journal.value.state == state
    ensures Steady(state, a, a + [next])
  {
  }

  /** A later journal of the same transfer, in which no entry lost what it had. */
  ghost predicate SameAndMore(a: J.Journal, b: J.Journal) {
    J.AllKept(a, b) && b.transfer == a.transfer && b.binding == a.binding
  }

  /** As long as a stage is live, its journals only ever gain: over any stretch of persistent states no entry
      loses what it had. */
  lemma {:induction false} ChainKeeps(sha: Content -> Digest, m: seq<J.Identity>, points: seq<Disk>, i: nat, j: nat)
    requires Chained(points) && i <= j < |points| && forall k :: i <= k <= j ==> Recoverable(sha, m, points[k])
    ensures points[i].journal.Some? && points[j].journal.Some? && SameAndMore(points[i].journal.value, points[j].journal.value)
    decreases j - i
  {
    hide J.AllKept;
    if i < j {
      assert Recoverable(sha, m, points[j - 1]) && Recoverable(sha, m, points[j]);
      ChainKeeps(sha, m, points, i, j - 1);
      StepKeepsAll(sha, m, points[j - 1], points[j]);
      J.KeptThrough(points[i].journal.value, points[j - 1].journal.value, points[j].journal.value);
    } else {
      assert Recoverable(sha, m, points[i]);
      KeptSelf(points[i].journal.value);
    }
  }

  lemma KeptSelf(j: J.Journal)
    ensures SameAndMore(j, j)
  {
  }

  lemma StepKeepsAll(sha: Content -> Digest, m: seq<J.Identity>, a: Disk, b: Disk)
    requires Recoverable(sha, m, a) && Recoverable(sha, m, b) && JournalStep(a.journal, b.journal)
    ensures SameAndMore(a.journal.value, b.journal.value)
  {
    if a.journal == b.journal {
      KeptSelf(a.journal.value);
    } else {
      J.LinkKeeps(sha([]), a.journal.value, b.journal.value);
    }
  }

  /** A complete file holds the same bytes in any two such states, under whichever name. */
  lemma SameHash(sha: Content -> Digest, m: seq<J.Identity>, a: Disk, b: Disk, k: nat)
    requires Recoverable(sha, m, a) && Recoverable(sha, m, b) && J.AllKept(a.journal.value, b.journal.value)
    requires IsFile(m, k) && k < |a.journal.value.entries| && Through(a.journal.value.entries[k])
    ensures k in a.parts || k in a.verified
    ensures k in b.parts || k in b.verified
    ensures sha(if k in a.verified then a.verified[k] else a.parts[k]) == sha(if k in b.verified then b.verified[k] else b.parts[k])
  {
    EntryFacts(sha, m, a.journal.value, k);
    EntryFacts(sha, m, b.journal.value, k);
    assert J.Kept(a.journal.value.entries[k], b.journal.value.entries[k]);
    assert FileHeld(sha, a.journal.value.entries[k], a, k) && FileHeld(sha, b.journal.value.entries[k], b, k);
  }

  // ---------------------------------------------------------------- sums

  lemma {:induction false} DoneSame(a: seq<J.Entry>, b: seq<J.Entry>)
    requires |a| == |b| && forall i :: 0 <= i < |a| ==> a[i].id == b[i].id && Through(a[i]) == Through(b[i])
    ensures DoneBytes(a) == DoneBytes(b)
  {
    if a != [] {
      DoneSame(a[..|a| - 1], b[..|b| - 1]);
    }
  }

  lemma {:induction false} DoneUpdate(es: seq<J.Entry>, i: nat, e: J.Entry)
    requires i < |es| && e.id == es[i].id && e.id.kind == J.File && !Through(es[i]) && Through(e)
    ensures DoneBytes(es[i := e]) == DoneBytes(es) + e.id.size
  {
    var n := |es| - 1;
    if i == n {
      assert es[i := e][..n] == es[..n];
    } else {
      assert es[i := e][..n] == es[..n][i := e];
      DoneUpdate(es[..n], i, e);
    }
  }

  // ---------------------------------------------------------------- steps of a live stage

  lemma CoreIsRest(sha: Content -> Digest, m: seq<J.Identity>, s: Stage)
    requires Core(sha, m, s)
    ensures Rest(sha, m, s) && s.journal.Some? && s.journal == s.disk.journal && |s.journal.value.entries| == |m|
  {
  }

  /** What a caller needs to know of a live stage. */
  lemma CoreFacts(sha: Content -> Digest, m: seq<J.Identity>, s: Stage)
    requires Core(sha, m, s)
    ensures s.journal.Some? && |s.journal.value.entries| == |m| && s.next <= |m| && !Terminal(s.journal.value.state)
    ensures Rest(sha, m, s) && s.journal == s.disk.journal && s.disk.present
    ensures s.file.Some? ==>
      && s.file.value == s.next && IsFile(m, s.next) && s.next in s.disk.parts && s.disk.parts[s.next] == s.hashed
      && |s.hashed| == s.offset <= m[s.next].size && s.journal.value.entries[s.next].p.durable <= s.offset
      && s.journal.value.entries[s.next].p.Received?
    ensures s.file.None? ==> s.offset == 0 && s.next !in s.disk.parts
    ensures forall i :: 0 <= i < |m| ==> s.journal.value.entries[i].id == m[i]
  {
    forall i | 0 <= i < |m| ensures s.journal.value.entries[i].id == m[i] {
      EntryFacts(sha, m, s.journal.value, i);
    }
  }

  /** A file that was passed meanwhile is durable to its end, and the journal had to say so. */
  lemma PassedIsDurable(sha: Content -> Digest, m: seq<J.Identity>, s: Stage, s': Stage)
    requires Core(sha, m, s) && Core(sha, m, s') && s.next < s'.next && IsFile(m, s.next)
    ensures s'.journal != s.journal && s.next < |s'.journal.value.entries| && s'.journal.value.entries[s.next].p.durable == m[s.next].size
  {
    CoreFacts(sha, m, s);
    CoreFacts(sha, m, s');
    EntryFacts(sha, m, s'.journal.value, s.next);
    assert !Through(s.journal.value.entries[s.next]) && Through(s'.journal.value.entries[s.next]);
  }

  lemma RestSound(sha: Content -> Digest, m: seq<J.Identity>, s: Stage)
    requires Rest(sha, m, s) && s.journal.Some?
    ensures Sound(sha, m, s.disk) && Owned(s)
  {
  }

  lemma RestOwned(sha: Content -> Digest, m: seq<J.Identity>, s: Stage)
    requires Rest(sha, m, s)
    ensures Owned(s)
  {
  }

  lemma RestAfter(sha: Content -> Digest, m: seq<J.Identity>, s: Stage)
    requires Sound(sha, m, s.disk) && Owned(s) && s.disk.present
    ensures Rest(sha, m, s)
  {
  }

  /** The next generation in another state. */
  function NextState(sha: Content -> Digest, j: J.Journal, state: J.State, nowNs: int): Result<J.Journal, J.Code> {
    J.UpdateState(sha([]), j, state, None, nowNs)
  }

  /** A journal that only changes state may be stored over the one it was made from. */
  lemma StateChangeSound(sha: Content -> Digest, m: seq<J.Identity>, s: Stage, state: J.State, nowNs: int)
    requires Rest(sha, m, s) && s.journal.Some? && 0 <= nowNs <= UINT64_MAX
    requires state in {J.Verifying, J.Finalizing} ==> AllComplete(s.journal.value.entries)
    requires state == J.Completed ==> forall i :: 0 <= i < |s.journal.value.entries| ==> J.Published(s.journal.value.entries[i])
    ensures var r := NextState(sha, s.journal.value, state, nowNs);
      r.Ok? ==>
        && r.value.generation == s.journal.value.generation + 1 && r.value.entries == s.journal.value.entries && r.value.state == state
        && (s.disk.journal == s.journal && J.TransitionFault(s.journal.value, r.value).None? ==>
              && Sound(sha, m, WithJournal(s.disk, r.value))
              && (s.disk.present || Ended(WithJournal(s.disk, r.value))))
  {
    var r := NextState(sha, s.journal.value, state, nowNs);
    if r.Ok? && s.disk.journal == s.journal && !Ended(s.disk) {
      StateStep(sha, m, s.disk, state, None, nowNs);
    }
  }

  /** The state change is made exactly when the generation can grow and the table allows it. */
  lemma StateChangeDecides(sha: Content -> Digest, m: seq<J.Identity>, s: Stage, state: J.State, nowNs: int)
    requires Rest(sha, m, s) && s.journal.Some? && s.disk.journal == s.journal && Recoverable(sha, m, s.disk) && s.disk.present
    requires 0 <= nowNs <= UINT64_MAX && state != J.Completed
    requires state in {J.Verifying, J.Finalizing} ==> AllComplete(s.journal.value.entries)
    ensures var r := NextState(sha, s.journal.value, state, nowNs);
      && (r.Ok? <==> s.journal.value.generation < UINT64_MAX)
      && (r.Ok? ==> (J.TransitionFault(s.journal.value, r.value).None? <==> J.MayTurn(s.journal.value.state, state)))
  {
    if s.journal.value.generation < UINT64_MAX {
      StateStep(sha, m, s.disk, state, None, nowNs);
    }
  }

  /** The entry the stage is at, when it is a file, is the first open one. */
  lemma NextIsOpen(sha: Content -> Digest, m: seq<J.Identity>, s: Stage)
    requires Core(sha, m, s) && IsFile(m, s.next)
    ensures FirstOpen(s.journal.value.entries, s.next) && s.journal.value.entries[s.next].id == m[s.next]
  {
    var es := s.journal.value.entries;
    EntryFacts(sha, m, s.journal.value, s.next);
    forall k | 0 <= k < s.next && es[k].id.kind == J.File ensures Through(es[k]) {
      EntryFacts(sha, m, s.journal.value, k);
    }
  }

  function Opened(s: Stage): Stage {
    s.(disk := s.disk.(parts := s.disk.parts[s.next := []]), file := Some(s.next), offset := 0, hashed := [])
  }

  lemma OpenedCore(sha: Content -> Digest, m: seq<J.Identity>, s: Stage)
    requires Core(sha, m, s) && s.file.None? && IsFile(m, s.next)
    ensures Core(sha, m, Opened(s)) && (Counted(s) ==> Counted(Opened(s)))
  {
    NextIsOpen(sha, m, s);
    CreateKeeps(sha, m, s.disk, s.next);
    EntryFacts(sha, m, s.journal.value, s.next);
    hide Recoverable, FirstOpen;
  }

  /** After the payload reached the disk and the hasher. */
  function Appended(s: Stage, payload: Content): Stage
    requires s.next in s.disk.parts
  {
    s.(disk := PartlyWritten(s.disk, s.next, payload),
       offset := s.offset + |payload|, hashed := s.hashed + payload, bytesDone := s.bytesDone + |payload|)
  }

  function PartlyWritten(d: Disk, i: nat, written: Content): Disk
    requires i in d.parts
  {
    d.(parts := d.parts[i := d.parts[i] + written])
  }

  lemma AppendedCore(sha: Content -> Digest, m: seq<J.Identity>, s: Stage, payload: Content)
    requires Core(sha, m, s) && s.file.Some? && s.offset + |payload| <= m[s.next].size
    ensures s.next in s.disk.parts && Core(sha, m, Appended(s, payload)) && (Counted(s) ==> Counted(Appended(s, payload)))
  {
    AppendKeeps(sha, m, s.disk, s.next, payload);
    var e := s.journal.value.entries[s.next];
    assert (s.hashed + payload)[..e.p.durable] == s.hashed[..e.p.durable];
    hide Recoverable, FirstOpen;
  }

  /** Whatever part of a payload reaches the disk before a failure, the stage stays recoverable. */
  lemma PartlyWrittenSound(sha: Content -> Digest, m: seq<J.Identity>, s: Stage, written: Content)
    requires Core(sha, m, s) && s.file.Some?
    ensures s.next in s.disk.parts && Rest(sha, m, s.(disk := PartlyWritten(s.disk, s.next, written)))
  {
    AppendKeeps(sha, m, s.disk, s.next, written);
  }

  /** The journal update the stage makes for its open file. */
  function Update(sha: Content -> Digest, s: Stage, completed: bool, nowNs: int): Result<J.Journal, J.Code>
    requires s.journal.Some? && s.next < |s.journal.value.entries|
  {
    Checkpointed(sha, s.journal.value, s.next, s.hashed, completed, nowNs)
  }

  /** Whether that update can be made. */
  predicate CanUpdate(sha: Content -> Digest, s: Stage, completed: bool)
    requires s.journal.Some? && s.next < |s.journal.value.entries|
  {
    s.journal.value.generation < UINT64_MAX && Recordable(sha, s.journal.value.entries[s.next], s.hashed, completed)
  }

  lemma UpdateReady(sha: Content -> Digest, m: seq<J.Identity>, s: Stage, completed: bool, nowNs: int)
    requires Core(sha, m, s) && s.file.Some? && nowNs <= UINT64_MAX && s.journal.value.generation < UINT64_MAX
    requires if completed then s.offset == m[s.next].size else Waiting(sha, m, s)
    ensures s.disk.journal.Some? && CheckpointReady(sha, m, s.disk, s.next, completed, nowNs)
  {
    EntryFacts(sha, m, s.journal.value, s.next);
    hide Recoverable, FirstOpen;
  }

  /** The update is made exactly when it can be; it is then a transition the store accepts. */
  lemma UpdateDecides(sha: Content -> Digest, m: seq<J.Identity>, s: Stage, completed: bool, nowNs: int)
    requires Core(sha, m, s) && s.file.Some? && 0 <= nowNs <= UINT64_MAX
    requires if completed then s.offset == m[s.next].size else Waiting(sha, m, s)
    ensures s.next < |s.journal.value.entries|
    ensures var r := Update(sha, s, completed, nowNs);
      && (r.Ok? <==> CanUpdate(sha, s, completed))
      && (r.Ok? ==>
            && J.TransitionFault(s.journal.value, r.value).None? && Recoverable(sha, m, WithJournal(s.disk, r.value))
            && r.value.generation == s.journal.value.generation + 1 && r.value.retryCount == s.journal.value.retryCount
            && r.value.state == J.Transferring)
  {
    if s.journal.value.generation < UINT64_MAX {
      UpdateReady(sha, m, s, completed, nowNs);
      CheckpointStep(sha, m, s.disk, s.next, completed, nowNs);
      if CanUpdate(sha, s, completed) {
        CheckpointRecoverable(sha, m, s.disk, s.next, completed, nowNs);
      }
    } else {
      OverflowRefused(sha, m, s, completed, nowNs);
    }
  }

  lemma OverflowRefused(sha: Content -> Digest, m: seq<J.Identity>, s: Stage, completed: bool, nowNs: int)
    requires Core(sha, m, s) && s.next < |m| && s.journal.value.generation == UINT64_MAX
    ensures Update(sha, s, completed, nowNs).Err?
  {
  }

  function Stored(s: Stage, next: J.Journal): Stage {
    s.(disk := WithJournal(s.disk, next), journal := Some(next))
  }

  lemma StoredCore(sha: Content -> Digest, m: seq<J.Identity>, s: Stage, nowNs: int)
    requires Live(sha, m, s) && s.file.Some? && 0 <= nowNs <= UINT64_MAX && CanUpdate(sha, s, false)
    ensures var r := Update(sha, s, false, nowNs); r.Ok? && Live(sha, m, Stored(s, r.value))
  {
    hide Recoverable, Update;
    CoreFacts(sha, m, s);
    var next := UpdatedEntries(sha, m, s, false, nowNs);
    var es := s.journal.value.entries;
    assert s.hashed[..|s.hashed|] == s.hashed;
    UpdatedEntry(sha, es[s.next], s.hashed, false);
    DoneSame(es, next.entries);
    hide DoneBytes;
  }

  /** What the update says of the entries. */
  lemma UpdatedEntries(sha: Content -> Digest, m: seq<J.Identity>, s: Stage, completed: bool, nowNs: int) returns (next: J.Journal)
    requires Core(sha, m, s) && s.file.Some? && 0 <= nowNs <= UINT64_MAX
    requires if completed then s.offset == m[s.next].size else Waiting(sha, m, s)
    requires CanUpdate(sha, s, completed)
    ensures var es := s.journal.value.entries;
      && Update(sha, s, completed, nowNs) == Ok(next) && Recoverable(sha, m, WithJournal(s.disk, next))
      && |es| == |m| && next.entries == es[s.next := OpenEntry(sha, es[s.next], s.hashed, completed)]
      && next.state == J.Transferring && next.generation == s.journal.value.generation + 1 && next.retryCount == s.journal.value.retryCount
  {
    UpdateDecides(sha, m, s, completed, nowNs);
    UpdateReady(sha, m, s, completed, nowNs);
    CheckpointStep(sha, m, s.disk, s.next, completed, nowNs);
    next := Update(sha, s, completed, nowNs).value;
  }

  /** The stage after its open file was completed, closed and passed. */
  function Closed(sha: Content -> Digest, s: Stage, next: J.Journal): Stage {
    Stored(s, next).(file := None, offset := 0, hashed := [], hashes := s.hashes[s.next := sha(s.hashed)], next := s.next + 1)
  }

  lemma ClosedCore(sha: Content -> Digest, m: seq<J.Identity>, s: Stage, nowNs: int)
    requires Core(sha, m, s) && s.file.Some? && s.offset == m[s.next].size && 0 <= nowNs <= UINT64_MAX && CanUpdate(sha, s, true)
    ensures var r := Update(sha, s, true, nowNs); r.Ok? && var s' := Closed(sha, s, r.value); Core(sha, m, s') && (Counted(s) ==> Counted(s'))
  {
    var next := UpdatedEntries(sha, m, s, true, nowNs);
    var es := s.journal.value.entries;
    EntryFacts(sha, m, s.journal.value, s.next);
    UpdatedEntry(sha, es[s.next], s.hashed, true);
    DoneUpdate(es, s.next, next.entries[s.next]);
    NoPartAhead(sha, m, s);
    ClosedHashes(sha, m, s, next);
    ClosedNamed(sha, m, s, next);
    hide Recoverable, Update, OpenEntry, FirstOpen, CanUpdate, Prefixed, DoneBytes, HashesOf, Named;
  }

  lemma ClosedNamed(sha: Content -> Digest, m: seq<J.Identity>, s: Stage, next: J.Journal)
    requires Core(sha, m, s) && s.file.Some?
    requires s.next < |m| == |s.journal.value.entries|
    requires var es := s.journal.value.entries; next.entries == es[s.next := OpenEntry(sha, es[s.next], s.hashed, true)]
    ensures Named(m, Closed(sha, s, next))
  {
    assert FileHeld(sha, s.journal.value.entries[s.next], s.disk, s.next);
  }

  lemma ClosedHashes(sha: Content -> Digest, m: seq<J.Identity>, s: Stage, next: J.Journal)
    requires s.journal.Some? && s.next < |m| == |s.journal.value.entries| && HashesOf(m, s) && IsFile(m, s.next)
    requires var es := s.journal.value.entries; next.entries == es[s.next := OpenEntry(sha, es[s.next], s.hashed, true)]
    ensures HashesOf(m, Closed(sha, s, next))
  {
    UpdatedEntry(sha, s.journal.value.entries[s.next], s.hashed, true);
    hide OpenEntry;
  }

  lemma UpdatedEntry(sha: Content -> Digest, e: J.Entry, c: Content, completed: bool)
    ensures var e' := OpenEntry(sha, e, c, completed);
      && e'.id == e.id && e'.p.Received? && e'.p.completed == completed
      && (completed ==> e'.p.receiver == Some(sha(c)))
  {
  }

  /** No part lies beyond an open one. */
  lemma NoPartAhead(sha: Content -> Digest, m: seq<J.Identity>, s: Stage)
    requires Core(sha, m, s) && s.file.Some?
    ensures forall b :: b in s.disk.parts ==> b <= s.next
  {
    var e := s.journal.value.entries[s.next];
    assert e.id.kind == J.File && e.p.Received? && !e.p.completed;
  }

  /** Passing a directory. */
  lemma PassedCore(sha: Content -> Digest, m: seq<J.Identity>, s: Stage)
    requires Core(sha, m, s) && s.file.None? && s.next < |m| && m[s.next].kind == J.Directory
    ensures Core(sha, m, s.(next := s.next + 1)) && (Counted(s) ==> Counted(s.(next := s.next + 1)))
  {
    hide Recoverable;
  }

  // ---------------------------------------------------------------- reopening

  /** Where a reopening stage has got to: everything before `next` is complete and hashed. */
  ghost predicate Reading(sha: Content -> Digest, m: seq<J.Identity>, s: Stage) {
    && Recoverable(sha, m, s.disk) && s.disk.present && s.journal == s.disk.journal
    && !Terminal(s.journal.value.state) && s.next <= |m| == |s.journal.value.entries|
    && (forall i {:trigger s.journal.value.entries[i]} :: 0 <= i < s.next && IsFile(m, i) ==> Through(s.journal.value.entries[i]))
    && HashesOf(m, s) && Named(m, s) && s.file.None? && s.offset == 0
  }

  /** A complete file is under exactly one of its names, whole, with the hash the journal claims. */
  lemma CompleteFileThere(sha: Content -> Digest, m: seq<J.Identity>, s: Stage)
    requires Reading(sha, m, s) && IsFile(m, s.next) && Through(s.journal.value.entries[s.next])
    ensures var e := s.journal.value.entries[s.next]; var d := s.disk;
      && (s.next in d.parts <==> s.next !in d.verified)
      && var c := if s.next in d.verified then d.verified[s.next] else d.parts[s.next];
      && |c| == m[s.next].size && e.p.receiver == Some(sha(c)) && e.p.prefix == e.p.receiver
  {
    var e := s.journal.value.entries[s.next];
    EntryFacts(sha, m, s.journal.value, s.next);
    assert FileHeld(sha, e, s.disk, s.next);
  }

  predicate NameAgrees(s: Stage, i: nat)
    requires s.journal.Some? && i < |s.journal.value.entries|
  {
    s.journal.value.entries[i].p.Received? && (s.journal.value.entries[i].p.storage == J.Verified <==> i in s.disk.verified)
  }

  function Rehashed(s: Stage, digest: Digest): Stage {
    s.(hashes := s.hashes[s.next := digest], next := s.next + 1)
  }

  lemma RehashedReading(sha: Content -> Digest, m: seq<J.Identity>, s: Stage, digest: Digest)
    requires s.journal.Some? && s.next < |s.journal.value.entries| && NameAgrees(s, s.next)
    requires Reading(sha, m, s) && IsFile(m, s.next) && Through(s.journal.value.entries[s.next])
    requires s.journal.value.entries[s.next].p.receiver == Some(digest)
    ensures Reading(sha, m, Rehashed(s, digest))
  {
    hide Recoverable;
  }

  lemma RenamedReading(sha: Content -> Digest, m: seq<J.Identity>, s: Stage)
    requires Reading(sha, m, s) && IsFile(m, s.next) && Through(s.journal.value.entries[s.next]) && s.next in s.disk.parts
    ensures Reading(sha, m, s.(disk := Renamed(s.disk, s.next)))
  {
    RenameKeeps(sha, m, s.disk, s.next);
    hide Recoverable;
  }

  /** The journal update for a complete file found under its verified name. */
  function VerifiedUpdate(sha: Content -> Digest, s: Stage, digest: Digest, nowNs: int): Result<J.Journal, J.Code>
    requires s.journal.Some? && s.next < |s.journal.value.entries|
  {
    var e := s.journal.value.entries[s.next];
    J.UpdateIncoming(sha([]), s.journal.value, s.next,
                     J.Received(e.id.size, e.id.size, Some(digest), true, Some(digest), J.Verified), None, nowNs)
  }

  lemma VerifiedUpdateMade(sha: Content -> Digest, m: seq<J.Identity>, s: Stage, digest: Digest, nowNs: int)
    requires Reading(sha, m, s) && IsFile(m, s.next) && Through(s.journal.value.entries[s.next]) && 0 <= nowNs <= UINT64_MAX
    requires s.journal.value.entries[s.next].p.receiver == Some(digest)
    ensures var j := s.journal.value; var r := VerifiedUpdate(sha, s, digest, nowNs);
      && (r.Ok? <==> j.generation < UINT64_MAX)
      && (r.Ok? ==>
            && J.TransitionFault(j, r.value).None? && r.value.generation == j.generation + 1 && r.value.state == j.state
            && r.value.retryCount == j.retryCount
            && Recoverable(sha, m, WithJournal(s.disk, r.value))
            && r.value.entries == j.entries[s.next := J.VerifiedEntry(j.entries[s.next])])
  {
    var j := s.journal.value;
    var es := j.entries;
    EntryFacts(sha, m, j, s.next);
    var es' := es[s.next := J.VerifiedEntry(es[s.next])];
    if j.generation < UINT64_MAX {
      assert VerifiedUpdate(sha, s, digest, nowNs) == J.NextJournal(sha([]), j, es', j.state, j.retryCount, nowNs);
      StorageStep(sha, m, s.disk, es', nowNs);
    }
  }

  lemma VerifiedUpdateStep(sha: Content -> Digest, m: seq<J.Identity>, s: Stage, digest: Digest, nowNs: int)
    requires Reading(sha, m, s) && IsFile(m, s.next) && Through(s.journal.value.entries[s.next]) && 0 <= nowNs <= UINT64_MAX
    requires s.journal.value.entries[s.next].p.receiver == Some(digest)
    ensures var j := s.journal.value; var r := VerifiedUpdate(sha, s, digest, nowNs);
      && (r.Ok? <==> j.generation < UINT64_MAX)
      && (r.Ok? ==>
            && J.TransitionFault(j, r.value).None? && r.value.generation == j.generation + 1 && r.value.retryCount == j.retryCount
            && r.value.state == j.state
            && Recoverable(sha, m, WithJournal(s.disk, r.value)) && Reading(sha, m, Stored(s, r.value))
            && Through(r.value.entries[s.next]) && r.value.entries[s.next].p.receiver == Some(digest)
            && r.value.entries[s.next].p.storage == J.Verified)
  {
    VerifiedUpdateMade(sha, m, s, digest, nowNs);
    hide Recoverable, VerifiedUpdate, J.TransitionFault;
  }

  /** At an incomplete file nothing further has been started. */
  lemma ReadingToCore(sha: Content -> Digest, m: seq<J.Identity>, s: Stage)
    requires Reading(sha, m, s) && (IsFile(m, s.next) ==> !Through(s.journal.value.entries[s.next]))
    requires s.next < |m| ==> IsFile(m, s.next) && s.next !in s.disk.parts
    ensures Core(sha, m, s)
  {
    var es := s.journal.value.entries;
    forall i | 0 <= i < |m| && IsFile(m, i) ensures Through(es[i]) <==> i < s.next {
      EntryFacts(sha, m, s.journal.value, i);
      if s.next < i {
        EntryFacts(sha, m, s.journal.value, s.next);
        LaterUntouched(sha, m, s.disk, s.next, i);
      }
    }
    forall b | b in s.disk.parts ensures b < s.next {
      if s.next < |m| {
        EntryFacts(sha, m, s.journal.value, s.next);
      }
    }
  }

  /** The open part of a reopened stage: cut back to its durable prefix, hashed up to it. */
  function Resumed(s: Stage): Stage
    requires s.journal.Some? && s.next < |s.journal.value.entries| && s.next in s.disk.parts
    requires 0 <= s.journal.value.entries[s.next].p.durable <= |s.disk.parts[s.next]|
  {
    var n := s.journal.value.entries[s.next].p.durable;
    var c := s.disk.parts[s.next][..n];
    s.(disk := s.disk.(parts := s.disk.parts[s.next := c]), file := Some(s.next), offset := n, hashed := c)
  }

  lemma DurablePartThere(sha: Content -> Digest, m: seq<J.Identity>, s: Stage)
    requires Reading(sha, m, s) && IsFile(m, s.next) && !Through(s.journal.value.entries[s.next])
    ensures var e := s.journal.value.entries[s.next];
      && s.next !in s.disk.verified && (e.p.durable > 0 ==> s.next in s.disk.parts)
      && 0 <= e.p.durable <= m[s.next].size
      && (s.next in s.disk.parts ==>
            && e.p.durable <= |s.disk.parts[s.next]|
            && (e.p.durable > 0 ==> e.p.prefix == Some(sha(s.disk.parts[s.next][..e.p.durable]))))
  {
    EntryFacts(sha, m, s.journal.value, s.next);
    assert FileHeld(sha, s.journal.value.entries[s.next], s.disk, s.next);
  }

  lemma ResumedCore(sha: Content -> Digest, m: seq<J.Identity>, s: Stage)
    requires Reading(sha, m, s) && IsFile(m, s.next) && !Through(s.journal.value.entries[s.next]) && s.next in s.disk.parts
    ensures 0 <= s.journal.value.entries[s.next].p.durable <= |s.disk.parts[s.next]|
    ensures Core(sha, m, Resumed(s)) && Waiting(sha, m, Resumed(s))
  {
    var es := s.journal.value.entries;
    DurablePartThere(sha, m, s);
    ReadingFirstOpen(sha, m, s);
    TruncateKeeps(sha, m, s.disk, s.next);
    EntryFacts(sha, m, s.journal.value, s.next);
    forall i | 0 <= i < |m| && IsFile(m, i) ensures Through(es[i]) <==> i < s.next {
      EntryFacts(sha, m, s.journal.value, i);
      if s.next < i {
        LaterUntouched(sha, m, s.disk, s.next, i);
      }
    }
    var c := Resumed(s).hashed;
    assert c[..es[s.next].p.durable] == c;
    assert Definite(es[s.next]);
    hide Recoverable, FirstOpen;
  }

  lemma ReadingFirstOpen(sha: Content -> Digest, m: seq<J.Identity>, s: Stage)
    requires Reading(sha, m, s) && IsFile(m, s.next) && !Through(s.journal.value.entries[s.next])
    ensures FirstOpen(s.journal.value.entries, s.next)
  {
    var es := s.journal.value.entries;
    EntryFacts(sha, m, s.journal.value, s.next);
    forall k | 0 <= k < s.next && es[k].id.kind == J.File ensures Through(es[k]) {
      EntryFacts(sha, m, s.journal.value, k);
    }
  }

  lemma CoreToReading(sha: Content -> Digest, m: seq<J.Identity>, s: Stage)
    requires Core(sha, m, s) && s.file.None?
    ensures Reading(sha, m, s)
  {
    hide Recoverable;
  }

  /** What a reopened stage counts as done. */
  function RestoredBytes(es: seq<J.Entry>): int {
    if es == [] then 0
    else
      var e := es[|es| - 1];
      RestoredBytes(es[..|es| - 1]) + (if e.id.kind != J.File then 0 else if Through(e) then e.id.size else e.p.durable)
  }

  lemma {:induction false} RestoredIsDone(es: seq<J.Entry>, k: nat)
    requires k <= |es|
    requires forall i :: 0 <= i < |es| && es[i].id.kind == J.File && i != k && !Through(es[i]) ==> es[i].p.durable == 0
    ensures RestoredBytes(es) == DoneBytes(es) + (if k < |es| && es[k].id.kind == J.File && !Through(es[k]) then es[k].p.durable else 0)
  {
    if es != [] {
      var n := |es| - 1;
      if k <= n {
        RestoredIsDone(es[..n], k);
      } else {
        RestoredIsDone(es[..n], n);
      }
    }
  }

  /** Counting the durable offsets of the journal counts exactly what the reopened stage holds. */
  lemma RestoredCounted(sha: Content -> Digest, m: seq<J.Identity>, s: Stage)
    requires Core(sha, m, s) && (s.file.Some? ==> s.offset == s.journal.value.entries[s.next].p.durable)
    ensures RestoredBytes(s.journal.value.entries) == DoneBytes(s.journal.value.entries) + s.offset
  {
    var es := s.journal.value.entries;
    forall i | 0 <= i < |es| && es[i].id.kind == J.File && i != s.next && !Through(es[i]) ensures es[i].p.durable == 0 {
      EntryFacts(sha, m, s.journal.value, i);
      RestoredTail(sha, m, s, i);
    }
    if s.next < |m| {
      RestoredAt(sha, m, s);
    }
    RestoredIsDone(es, s.next);
  }

  lemma RestoredTail(sha: Content -> Digest, m: seq<J.Identity>, s: Stage, i: nat)
    requires Core(sha, m, s) && IsFile(m, i) && i != s.next && !Through(s.journal.value.entries[i])
    ensures s.journal.value.entries[i].p.durable == 0
  {
    assert FileHeld(sha, s.journal.value.entries[i], s.disk, i);
    EntryFacts(sha, m, s.journal.value, i);
    if s.file.Some? {
      NoPartAhead(sha, m, s);
    }
  }

  lemma RestoredAt(sha: Content -> Digest, m: seq<J.Identity>, s: Stage)
    requires Core(sha, m, s) && s.next < |m|
    ensures s.file.None? && IsFile(m, s.next) ==> s.journal.value.entries[s.next].p.durable == 0
  {
    EntryFacts(sha, m, s.journal.value, s.next);
    assert FileHeld(sha, s.journal.value.entries[s.next], s.disk, s.next);
  }

  // ---------------------------------------------------------------- what the stage has received

  /** The bytes of file `i` the stage holds, wherever they lie. */
  function Held(s: Stage, i: nat): Content {
    if s.file == Some(i) then s.hashed
    else if i in s.disk.verified then s.disk.verified[i]
    else if i in s.disk.parts then s.disk.parts[i]
    else []
  }

  ghost predicate SameHeld(a: Stage, b: Stage) {
    forall i: nat :: Held(a, i) == Held(b, i)
  }

  lemma SameFilesHeld(a: Stage, b: Stage)
    requires a.disk.parts == b.disk.parts && a.disk.verified == b.disk.verified && a.file == b.file && a.hashed == b.hashed
    ensures SameHeld(a, b)
  {
  }

  lemma OpenedHeld(sha: Content -> Digest, m: seq<J.Identity>, s: Stage)
    requires Core(sha, m, s) && s.file.None? && IsFile(m, s.next)
    ensures SameHeld(s, Opened(s))
  {
    NextIsOpen(sha, m, s);
    assert FileHeld(sha, s.journal.value.entries[s.next], s.disk, s.next);
  }

  lemma ClosedHeld(sha: Content -> Digest, m: seq<J.Identity>, s: Stage, next: J.Journal)
    requires Core(sha, m, s) && s.file.Some?
    ensures SameHeld(s, Closed(sha, s, next))
  {
    assert FileHeld(sha, s.journal.value.entries[s.next], s.disk, s.next);
  }

  lemma AppendedHeld(sha: Content -> Digest, m: seq<J.Identity>, s: Stage, payload: Content)
    requires Core(sha, m, s) && s.file.Some?
    ensures s.next in s.disk.parts
    ensures forall i: nat :: Held(Appended(s, payload), i) == Held(s, i) + (if i == s.next then payload else [])
  {
  }

  /** One file was completed and passed, and nothing else happened. */
  ghost predicate FileClosed(sha: Content -> Digest, m: seq<J.Identity>, s: Stage, s': Stage, nowNs: int) {
    && s.journal.Some? && s.next < |s.journal.value.entries| && CanUpdate(sha, s, true)
    && Update(sha, s, true, nowNs).Ok? && s' == Closed(sha, s, Update(sha, s, true, nowNs).value)
    && Core(sha, m, s') && (Counted(s) ==> Counted(s')) && SameHeld(s, s')
  }

  lemma ClosedFile(sha: Content -> Digest, m: seq<J.Identity>, s: Stage, nowNs: int)
    requires Core(sha, m, s) && s.file.Some? && s.offset == m[s.next].size && 0 <= nowNs <= UINT64_MAX && CanUpdate(sha, s, true)
    ensures Update(sha, s, true, nowNs).Ok?
    ensures FileClosed(sha, m, s, Closed(sha, s, Update(sha, s, true, nowNs).value), nowNs)
  {
    ClosedCore(sha, m, s, nowNs);
    hide Update, Core, SameHeld, CanUpdate;
    ClosedHeld(sha, m, s, Update(sha, s, true, nowNs).value);
  }

  /** The next place a payload can go to: a file with at least one byte. */
  function NextPayload(m: seq<J.Identity>, i: nat): nat
    decreases |m| - i
  {
    if i >= |m| || (m[i].kind == J.File && m[i].size != 0) then i else NextPayload(m, i + 1)
  }

  lemma NextPayloadStep(m: seq<J.Identity>, i: nat)
    ensures NextPayload(m, i) == if i >= |m| || (m[i].kind == J.File && m[i].size != 0) then i else NextPayload(m, i + 1)
  {
  }

  lemma FileClosedFacts(sha: Content -> Digest, m: seq<J.Identity>, s: Stage, s': Stage, nowNs: int)
    requires FileClosed(sha, m, s, s', nowNs)
    ensures Core(sha, m, s') && SameHeld(s, s') && s'.next == s.next + 1 && s'.file.None? && s'.phase == s.phase
    ensures s.journal.Some? && s'.journal.Some? && (Counted(s) ==> Counted(s'))
    ensures s'.journal.value.generation == s.journal.value.generation + 1 && s'.journal.value.retryCount == s.journal.value.retryCount
    ensures s'.bytesDone == s.bytesDone
  {
    hide Core, SameHeld, Counted;
  }

  lemma FileClosedState(sha: Content -> Digest, m: seq<J.Identity>, s: Stage, s': Stage, nowNs: int)
    requires Core(sha, m, s) && s.file.Some? && s.offset == m[s.next].size && 0 <= nowNs <= UINT64_MAX && FileClosed(sha, m, s, s', nowNs)
    ensures s'.journal.Some? && s'.journal.value.state == J.Transferring
  {
    hide Core, SameHeld, Counted, Update, CanUpdate, Closed;
    var next := UpdatedEntries(sha, m, s, true, nowNs);
    ClosedJournal(sha, s, next);
  }

  lemma ClosedJournal(sha: Content -> Digest, s: Stage, next: J.Journal)
    ensures Closed(sha, s, next).journal == Some(next)
  {
  }

  /** A live stage can be marked as failed unless its generations are used up. */
  lemma MayFail(sha: Content -> Digest, m: seq<J.Identity>, s: Stage, nowNs: int)
    requires Core(sha, m, s) && s.journal.Some? && s.journal.value.generation < UINT64_MAX && 0 <= nowNs <= UINT64_MAX
    ensures NextState(sha, s.journal.value, J.Failed, nowNs).Ok?
  {
    CoreFacts(sha, m, s);
    LiveHeader(sha, m, s);
    StateChangeDecides(sha, m, s, J.Failed, nowNs);
  }

  lemma HeldTrans(a: Stage, b: Stage, c: Stage)
    requires SameHeld(a, b) && SameHeld(b, c)
    ensures SameHeld(a, c)
  {
  }

  lemma HeldSelf(s: Stage)
    ensures SameHeld(s, s) && forall k :: SameHeld(s, s.(next := k))
  {
  }

  /** A live stage that stands at a payload file, at the end, or at an empty file it could not close. */
  lemma SettledInv(sha: Content -> Digest, m: seq<J.Identity>, s: Stage)
    requires Core(sha, m, s) && s.journal.Some? && Counted(s) && s.phase == Receiving
    requires s.next < |m| ==> IsFile(m, s.next) && (s.file.None? ==> m[s.next].size != 0) && (s.file.Some? ==> m[s.next].size == 0)
    ensures StageInv(sha, m, s) && Live(sha, m, s)
  {
    CoreFacts(sha, m, s);
    if s.next < |m| {
      EntryFacts(sha, m, s.journal.value, s.next);
    }
    hide Core;
  }

  /** The completion of the open file cannot be recorded: no generation is left, or the manifest names
      another hash. */
  predicate Stuck(sha: Content -> Digest, s: Stage) {
    && s.journal.Some? && s.file.Some? && s.next < |s.journal.value.entries|
    && (s.journal.value.generation >= UINT64_MAX
        || (s.offset == s.journal.value.entries[s.next].id.size && Mismatch(s.journal.value.entries[s.next], sha(s.hashed))))
  }

  lemma StuckWhenNotRecordable(sha: Content -> Digest, m: seq<J.Identity>, s: Stage)
    requires Core(sha, m, s) && s.file.Some? && s.offset == m[s.next].size && s.journal.Some? && s.next < |s.journal.value.entries|
    requires !CanUpdate(sha, s, true)
    ensures Stuck(sha, s)
  {
    EntryFacts(sha, m, s.journal.value, s.next);
  }

  lemma InvIsLive(sha: Content -> Digest, m: seq<J.Identity>, s: Stage)
    requires StageInv(sha, m, s) && s.phase == Receiving
    ensures Live(sha, m, s) && Core(sha, m, s) && s.journal.Some? && |s.journal.value.entries| == |m| && Waiting(sha, m, s) && Counted(s)
  {
  }

  lemma LiveIsInv(sha: Content -> Digest, m: seq<J.Identity>, s: Stage)
    requires Live(sha, m, s) && s.phase == Receiving
    ensures StageInv(sha, m, s)
  {
    CoreFacts(sha, m, s);
  }

  /** What a recorded checkpoint leaves behind. */
  lemma StoredFacts(sha: Content -> Digest, m: seq<J.Identity>, s: Stage, nowNs: int)
    requires Live(sha, m, s) && s.file.Some? && 0 <= nowNs <= UINT64_MAX && CanUpdate(sha, s, false) && s.phase == Receiving
    ensures var r := Update(sha, s, false, nowNs);
      && r.Ok? && StageInv(sha, m, Stored(s, r.value)) && SameHeld(s, Stored(s, r.value))
      && r.value.generation == s.journal.value.generation + 1 && |r.value.entries| == |m|
      && s.next < |m| && r.value.entries[s.next].p.durable == s.offset
  {
    StoredCore(sha, m, s, nowNs);
    var next := UpdatedEntries(sha, m, s, false, nowNs);
    hide Live, Update;
    LiveIsInv(sha, m, Stored(s, next));
  }

  /** A file with all its bytes whose completion cannot be recorded stays open, and the stage live. */
  lemma StuckIsLive(sha: Content -> Digest, m: seq<J.Identity>, s: Stage)
    requires Core(sha, m, s) && s.journal.Some? && Counted(s) && s.file.Some? && s.offset == m[s.next].size && Stuck(sha, s) && s.phase == Receiving
    ensures StageInv(sha, m, s)
  {
    EntryFacts(sha, m, s.journal.value, s.next);
    CoreFacts(sha, m, s);
  }

  lemma UnfinishedIsLive(sha: Content -> Digest, m: seq<J.Identity>, s: Stage)
    requires Core(sha, m, s) && s.journal.Some? && Counted(s) && s.file.Some? && s.offset < m[s.next].size && s.phase == Receiving
    ensures StageInv(sha, m, s)
  {
    CoreFacts(sha, m, s);
  }

  /** A payload was added to what is held of one file. */
  ghost predicate Received(s: Stage, s': Stage, payload: Content) {
    forall i: nat :: Held(s', i) == Held(s, i) + (if i == s.next then payload else [])
  }

  lemma ReceivedThen(a: Stage, b: Stage, c: Stage, payload: Content)
    requires a.next == b.next
    ensures SameHeld(a, b) && Received(b, c, payload) ==> Received(a, c, payload)
    ensures Received(a, b, payload) && SameHeld(b, c) ==> Received(a, c, payload)
  {
  }

  /** Where the stage expects the next payload once it has `offset` bytes of file `next`. */
  function Position(m: seq<J.Identity>, next: nat, offset: nat): (nat, nat)
    requires next < |m|
  {
    if offset == m[next].size then (NextPayload(m, next + 1), 0) else (next, offset)
  }

  lemma AppendedReceived(sha: Content -> Digest, m: seq<J.Identity>, s: Stage, payload: Content)
    requires Core(sha, m, s) && s.file.Some? && s.offset + |payload| <= m[s.next].size && s.journal.Some? && Counted(s)
    ensures s.next in s.disk.parts && Core(sha, m, Appended(s, payload)) && Counted(Appended(s, payload))
    ensures Received(s, Appended(s, payload), payload) && Sound(sha, m, Appended(s, payload).disk)
  {
    AppendedCore(sha, m, s, payload);
    AppendedHeld(sha, m, s, payload);
    hide Core;
    CoreFacts(sha, m, Appended(s, payload));
  }

  /** With bytes to record, only a full generation counter stops a checkpoint. */
  lemma UnrecordedIsStuck(sha: Content -> Digest, m: seq<J.Identity>, s: Stage)
    requires Core(sha, m, s) && s.file.Some? && s.offset > 0
    requires s.journal.Some? && s.next < |s.journal.value.entries| && !CanUpdate(sha, s, false)
    ensures Stuck(sha, s)
  {
  }

  // ---------------------------------------------------------------- more on reopening

  lemma PristineCore(sha: Content -> Digest, m: seq<J.Identity>, s: Stage, before: Disk)
    requires s.journal.Some? && StageJournal(sha, m, s.journal.value) && Pristine(s.journal.value)
    requires s.disk == Disk(true, map[], map[], s.journal) && before == Disk(false, map[], map[], s.journal)
    requires s.next == 0 && s.file.None? && s.offset == 0 && s.hashes == map[] && s.bytesDone == 0
    ensures Core(sha, m, s) && Counted(s) && Sound(sha, m, before) && Sound(sha, m, s.disk)
  {
    var es := s.journal.value.entries;
    forall i | 0 <= i < |es|
      ensures FileHeld(sha, es[i], s.disk, i) && FileHeld(sha, es[i], before, i) && (es[i].id.kind == J.File ==> !Through(es[i]))
      ensures i < |m| && es[i].id == m[i]
    {
      EntryFacts(sha, m, s.journal.value, i);
    }
    assert |J.Identities(es)| == |m|;
    NothingDone(es);
  }

  lemma {:induction false} NothingDone(es: seq<J.Entry>)
    requires forall i :: 0 <= i < |es| && es[i].id.kind == J.File ==> !Through(es[i])
    ensures DoneBytes(es) == 0
  {
    if es != [] {
      NothingDone(es[..|es| - 1]);
    }
  }

  lemma FoundReading(sha: Content -> Digest, m: seq<J.Identity>, s: Stage, found: Disk)
    requires Recoverable(sha, m, found) && !Terminal(found.journal.value.state)
    requires s.disk == found.(present := true) && s.journal == found.journal
    requires s.next == 0 && s.file.None? && s.offset == 0 && s.hashes == map[]
    ensures Reading(sha, m, s) && Sound(sha, m, found) && Sound(sha, m, s.disk)
  {
    var es := found.journal.value.entries;
    forall i | 0 <= i < |es| ensures FileHeld(sha, es[i], s.disk, i) {
      assert FileHeld(sha, es[i], found, i);
    }
    assert |es| == |J.Identities(es)| == |m|;
  }

  lemma ReadingFacts(sha: Content -> Digest, m: seq<J.Identity>, s: Stage)
    requires Reading(sha, m, s)
    ensures s.journal.Some? && |s.journal.value.entries| == |m| && s.next <= |m| && s.journal == s.disk.journal && s.disk.present
    ensures Sound(sha, m, s.disk) && Owned(s) && Rest(sha, m, s) && Recoverable(sha, m, s.disk)
    ensures s.file.None? && s.offset == 0 && !Terminal(s.journal.value.state)
    ensures forall i :: 0 <= i < |m| ==> s.journal.value.entries[i].id == m[i] && s.journal.value.entries[i].p.Received?
  {
    forall i | 0 <= i < |m| ensures s.journal.value.entries[i].id == m[i] && s.journal.value.entries[i].p.Received? {
      EntryFacts(sha, m, s.journal.value, i);
    }
  }

  /** From entry `k` on nothing was touched between `a` and `b`. */
  ghost predicate Unread(a: Stage, b: Stage, k: nat) {
    && a.journal.Some? && b.journal.Some? && |a.journal.value.entries| == |b.journal.value.entries|
    && (forall i {:trigger b.journal.value.entries[i]} {:trigger a.journal.value.entries[i]} :: k <= i < |b.journal.value.entries| ==>
          b.journal.value.entries[i] == a.journal.value.entries[i])
    && (forall i :: i >= k ==> (i in a.disk.parts <==> i in b.disk.parts))
  }

  lemma RenamedHeld(s: Stage)
    requires s.next in s.disk.parts && s.next !in s.disk.verified && s.file.None? && s.journal.Some?
    ensures SameHeld(s, s.(disk := Renamed(s.disk, s.next))) && Unread(s, s.(disk := Renamed(s.disk, s.next)), s.next + 1)
  {
  }

  lemma RenameHeld(s: Stage, i: nat)
    requires i in s.disk.parts && i !in s.disk.verified && s.file.None?
    ensures SameHeld(s, s.(disk := Renamed(s.disk, i)))
  {
  }

  lemma RehashedHeld(s: Stage)
    ensures SameHeld(s, s)
    ensures forall digest :: SameHeld(s, Rehashed(s, digest))
    ensures s.journal.Some? ==> Unread(s, s, s.next + 1) && forall digest :: Unread(s, Rehashed(s, digest), s.next + 1)
  {
  }

  lemma VerifiedUnread(sha: Content -> Digest, s: Stage, digest: Digest, nowNs: int)
    requires s.journal.Some? && s.next < |s.journal.value.entries| && VerifiedUpdate(sha, s, digest, nowNs).Ok?
    ensures var s' := Stored(s, VerifiedUpdate(sha, s, digest, nowNs).value); SameHeld(s, s') && Unread(s, s', s.next + 1)
  {
  }

  /** Reading went from `a` to `b` touching nothing at or after entry `k`. */
  ghost predicate ReadOn(sha: Content -> Digest, m: seq<J.Identity>, a: Stage, b: Stage, k: nat) {
    Reading(sha, m, b) && SameHeld(a, b) && Unread(a, b, k) && b.phase == a.phase
  }

  lemma ReadOnTrans(sha: Content -> Digest, m: seq<J.Identity>, a: Stage, b: Stage, c: Stage, k: nat, l: nat)
    requires ReadOn(sha, m, a, b, k) && ReadOn(sha, m, b, c, l) && k <= l
    ensures ReadOn(sha, m, a, c, l)
  {
    hide Reading;
  }

  lemma RenamedReadOn(sha: Content -> Digest, m: seq<J.Identity>, s: Stage)
    requires Reading(sha, m, s) && IsFile(m, s.next) && s.journal.Some? && s.next < |s.journal.value.entries|
    requires Through(s.journal.value.entries[s.next]) && s.next in s.disk.parts && s.next !in s.disk.verified
    ensures ReadOn(sha, m, s, s.(disk := Renamed(s.disk, s.next)), s.next + 1)
  {
    RenamedReading(sha, m, s);
    RenamedHeld(s);
    hide Reading;
    ReadingFacts(sha, m, s);
  }

  lemma VerifiedReadOn(sha: Content -> Digest, m: seq<J.Identity>, s: Stage, digest: Digest, nowNs: int)
    requires Reading(sha, m, s) && IsFile(m, s.next) && s.journal.Some? && s.next < |s.journal.value.entries|
    requires Through(s.journal.value.entries[s.next]) && 0 <= nowNs <= UINT64_MAX
    requires s.journal.value.entries[s.next].p.receiver == Some(digest)
    ensures var j := s.journal.value; var r := VerifiedUpdate(sha, s, digest, nowNs);
      && (r.Ok? <==> j.generation < UINT64_MAX)
      && (r.Ok? ==>
            && J.TransitionFault(j, r.value).None? && r.value.generation == j.generation + 1 && Sound(sha, m, WithJournal(s.disk, r.value))
            && r.value.retryCount == j.retryCount && r.value.state == j.state
            && ReadOn(sha, m, s, Stored(s, r.value), s.next + 1)
            && s.next < |r.value.entries| && Through(r.value.entries[s.next]) && r.value.entries[s.next].p.receiver == Some(digest)
            && (s.next in s.disk.verified ==> NameAgrees(Stored(s, r.value), s.next)))
  {
    hide Reading, VerifiedUpdate, J.TransitionFault, SameHeld, Unread, Recoverable;
    VerifiedUpdateStep(sha, m, s, digest, nowNs);
    var r := VerifiedUpdate(sha, s, digest, nowNs);
    if r.Ok? {
      VerifiedUnread(sha, s, digest, nowNs);
      ReadingFacts(sha, m, Stored(s, r.value));
    }
  }

  lemma RehashedReadOn(sha: Content -> Digest, m: seq<J.Identity>, s: Stage, digest: Digest)
    requires Reading(sha, m, s) && IsFile(m, s.next) && s.journal.Some? && s.next < |s.journal.value.entries|
    requires Through(s.journal.value.entries[s.next]) && s.journal.value.entries[s.next].p.receiver == Some(digest) && NameAgrees(s, s.next)
    ensures ReadOn(sha, m, s, Rehashed(s, digest), s.next + 1)
  {
    RehashedReading(sha, m, s, digest);
    RehashedHeld(s);
  }

  lemma ReadOnReading(sha: Content -> Digest, m: seq<J.Identity>, a: Stage, b: Stage, k: nat)
    requires ReadOn(sha, m, a, b, k)
    ensures Reading(sha, m, b) && b.journal.Some? && |b.journal.value.entries| == |m| && Sound(sha, m, b.disk) && b.phase == a.phase
    ensures SameHeld(a, b) && Unread(a, b, k)
  {
    ReadingFacts(sha, m, b);
  }

  lemma StoredState(sha: Content -> Digest, m: seq<J.Identity>, s: Stage)
    requires Reading(sha, m, s)
    ensures s.journal.Some? && s.disk.journal == s.journal
  {
  }

  lemma ReadOnSelf(sha: Content -> Digest, m: seq<J.Identity>, s: Stage, k: nat)
    requires Reading(sha, m, s)
    ensures ReadOn(sha, m, s, s, k)
  {
    ReadingFacts(sha, m, s);
  }

  /** The entries before `k` were complete to begin with, or empty and never started. */
  ghost predicate PassedAll(m: seq<J.Identity>, a: Stage, k: nat)
    requires a.journal.Some? && |a.journal.value.entries| == |m|
  {
    forall i {:trigger a.journal.value.entries[i]} :: 0 <= i < k && IsFile(m, i) ==>
      Through(a.journal.value.entries[i]) || (m[i].size == 0 && i !in a.disk.parts)
  }

  lemma PassedOne(m: seq<J.Identity>, a: Stage, here: Stage)
    requires a.journal.Some? && |a.journal.value.entries| == |m| && PassedAll(m, a, here.next) && Unread(a, here, here.next)
    requires here.next < |m|
    requires IsFile(m, here.next) ==>
      Through(here.journal.value.entries[here.next]) || (m[here.next].size == 0 && here.next !in here.disk.parts)
    ensures PassedAll(m, a, here.next + 1)
  {
    assert here.journal.value.entries[here.next] == a.journal.value.entries[here.next];
  }

  lemma DirectoryRead(sha: Content -> Digest, m: seq<J.Identity>, s: Stage)
    requires Reading(sha, m, s) && s.next < |m| && m[s.next].kind == J.Directory
    ensures ReadOn(sha, m, s, s.(next := s.next + 1), s.next + 1)
  {
    hide Recoverable;
    HeldSelf(s);
    ReadingFacts(sha, m, s);
  }

  /** The first empty file of a stage is created and completed while reading. */
  lemma EmptyRead(sha: Content -> Digest, m: seq<J.Identity>, s: Stage, b: Stage, nowNs: int)
    requires Reading(sha, m, s) && IsFile(m, s.next) && Core(sha, m, s) && FileClosed(sha, m, Opened(s), b, nowNs)
    requires s.file.None? && m[s.next].size == 0 && 0 <= nowNs <= UINT64_MAX
    ensures ReadOn(sha, m, s, b, s.next + 1) && b.next == s.next + 1
  {
    hide Core, Reading, SameHeld, FileClosed, Unread;
    CoreFacts(sha, m, s);
    OpenedHeld(sha, m, s);
    FileClosedFacts(sha, m, Opened(s), b, nowNs);
    CoreToReading(sha, m, b);
    HeldTrans(s, Opened(s), b);
    OpenedCore(sha, m, s);
    ClosedUnread(sha, m, s, b, nowNs);
  }

  lemma ClosedUnread(sha: Content -> Digest, m: seq<J.Identity>, s: Stage, b: Stage, nowNs: int)
    requires Core(sha, m, s) && IsFile(m, s.next) && Core(sha, m, Opened(s)) && FileClosed(sha, m, Opened(s), b, nowNs)
    requires s.file.None? && m[s.next].size == 0 && 0 <= nowNs <= UINT64_MAX
    ensures Unread(s, b, s.next + 1)
  {
    hide Core, SameHeld, Update, CanUpdate;
    CoreFacts(sha, m, s);
    CoreFacts(sha, m, Opened(s));
    var next := UpdatedEntries(sha, m, Opened(s), true, nowNs);
  }

  /** Reopening counts one more retry; the state of the journal does not change. */
  lemma RetryStep(sha: Content -> Digest, m: seq<J.Identity>, s: Stage, nowNs: int)
    requires Live(sha, m, s) && s.journal.Some? && 0 <= nowNs <= UINT64_MAX && s.phase == Receiving
    ensures var j := s.journal.value; var r := J.UpdateState(sha([]), j, j.state, Some(j.retryCount + 1), nowNs);
      && (j.generation < UINT64_MAX && j.retryCount < UINT64_MAX ==> r.Ok?)
      && (r.Ok? ==>
            && J.TransitionFault(j, r.value).None? && r.value.generation == j.generation + 1 && r.value.entries == j.entries
            && r.value.state == j.state
            && Sound(sha, m, WithJournal(s.disk, r.value)) && StageInv(sha, m, Stored(s, r.value)) && SameHeld(s, Stored(s, r.value)))
  {
    hide Recoverable, Waiting, HashesOf, OpenPart, J.TransitionFault, StageJournal;
    var j := s.journal.value;
    var r := J.UpdateState(sha([]), j, j.state, Some(j.retryCount + 1), nowNs);
    LiveHeader(sha, m, s);
    if j.generation < UINT64_MAX && j.retryCount < UINT64_MAX {
      StateStep(sha, m, s.disk, j.state, Some(j.retryCount + 1), nowNs);
      SameEntriesLive(sha, m, s, r.value);
      LiveIsInv(sha, m, Stored(s, r.value));
    } else {
      assert r.Err?;
    }
  }

  lemma LiveHeader(sha: Content -> Digest, m: seq<J.Identity>, s: Stage)
    requires Core(sha, m, s)
    ensures s.journal.Some? && 0 <= s.journal.value.retryCount <= UINT64_MAX && s.journal.value.generation <= UINT64_MAX
    ensures s.journal.value.state in J.Successors(s.journal.value.state)
    ensures s.journal.value.state in {J.Verifying, J.Finalizing} ==> AllComplete(s.journal.value.entries)
    ensures Recoverable(sha, m, s.disk) && s.disk.present && s.disk.journal == s.journal && !Terminal(s.journal.value.state)
  {
    HeaderInRange(sha, m, s.journal.value);
  }

  lemma SameEntriesLive(sha: Content -> Digest, m: seq<J.Identity>, s: Stage, next: J.Journal)
    requires Live(sha, m, s) && s.journal.Some? && Recoverable(sha, m, WithJournal(s.disk, next)) && !Terminal(next.state)
    requires next.entries == s.journal.value.entries && next.generation == s.journal.value.generation + 1
    ensures Live(sha, m, Stored(s, next)) && SameHeld(s, Stored(s, next)) && Sound(sha, m, WithJournal(s.disk, next))
  {
    HeaderInRange(sha, m, next);
    hide Recoverable;
  }

  lemma HeaderInRange(sha: Content -> Digest, m: seq<J.Identity>, j: J.Journal)
    requires StageJournal(sha, m, j)
    ensures 0 <= j.retryCount <= UINT64_MAX && j.generation <= UINT64_MAX
    ensures j.state != J.Completed ==> j.state in J.Successors(j.state)
  {
  }

  /** Reopening changes nothing held but the open file, which is cut back to what was durable. */
  ghost predicate CutBack(a: Stage, b: Stage)
    requires b.journal.Some?
  {
    && (forall i: nat :: i != b.next ==> Held(b, i) == Held(a, i))
    && (b.file.None? ==> Held(b, b.next) == Held(a, b.next))
    && (b.file.Some? ==> b.offset <= |Held(a, b.next)| && Held(b, b.next) == Held(a, b.next)[..b.offset])
  }

  lemma CutBackResumed(s: Stage)
    requires s.journal.Some? && s.next < |s.journal.value.entries| && s.next in s.disk.parts && s.file.None? && s.next !in s.disk.verified
    requires 0 <= s.journal.value.entries[s.next].p.durable <= |s.disk.parts[s.next]|
    ensures CutBack(s, Resumed(s))
  {
  }

  /** Cutting back after reading. */
  lemma ReadThenCut(a: Stage, b: Stage, c: Stage)
    requires SameHeld(a, b) && c.journal.Some? && CutBack(b, c)
    ensures CutBack(a, c)
  {
  }

  lemma CutThenSame(a: Stage, b: Stage, c: Stage)
    requires b.journal.Some? && c.journal.Some? && CutBack(a, b) && SameHeld(b, c) && b.next == c.next && b.file == c.file && b.offset == c.offset
    ensures CutBack(a, c)
  {
  }

  /** Nothing incomplete was left to read, or its first payload is awaited. */
  lemma ReadToEnd(sha: Content -> Digest, m: seq<J.Identity>, s: Stage)
    requires Reading(sha, m, s) && s.journal.Some? && |s.journal.value.entries| == |m|
    requires s.next < |m| ==> IsFile(m, s.next) && !Through(s.journal.value.entries[s.next]) && s.next !in s.disk.parts && m[s.next].size != 0
    ensures Core(sha, m, s) && Waiting(sha, m, s) && CutBack(s, s)
  {
    ReadingToCore(sha, m, s);
    if s.next < |m| {
      EntryFacts(sha, m, s.journal.value, s.next);
    }
  }

  lemma CountingKeeps(sha: Content -> Digest, m: seq<J.Identity>, a: Stage, s: Stage, n: int)
    requires Core(sha, m, s) && Waiting(sha, m, s) && s.journal.Some? && CutBack(a, s) && n == DoneBytes(s.journal.value.entries) + s.offset
    ensures var s' := s.(bytesDone := n); Core(sha, m, s') && Waiting(sha, m, s') && Counted(s') && CutBack(a, s')
  {
    hide Recoverable;
  }

  /** The journal state after reading the first `k` entries: still the one found, with all of them
      complete from the start, or transferring, because an empty file was completed on the way. */
  predicate RestoredState(found: Option<J.Journal>, journal: Option<J.Journal>, k: nat) {
    && found.Some? && journal.Some?
    && (journal.value.state == J.Transferring
        || (journal.value.state == found.value.state
            && forall i :: 0 <= i < k && i < |found.value.entries| && found.value.entries[i].id.kind == J.File ==> Through(found.value.entries[i])))
  }

  // ---------------------------------------------------------------- finalizing

  /** Every file is complete, its journal is finalizing, and the first `k` entries have their verified name. */
  ghost predicate Sealing(sha: Content -> Digest, m: seq<J.Identity>, s: Stage, k: nat) {
    && Recoverable(sha, m, s.disk) && s.disk.present && s.journal == s.disk.journal && s.phase == Finalizing
    && s.journal.value.state == J.Finalizing && |m| == |s.journal.value.entries| == s.next && k <= |m|
    && s.file.None? && HashesOf(m, s)
    && (forall i {:trigger s.journal.value.entries[i]} :: 0 <= i < |m| && IsFile(m, i) ==>
          && Through(s.journal.value.entries[i])
          && (if i < k then i in s.disk.verified
              else s.journal.value.entries[i].p.storage == J.Verified <==> i in s.disk.verified))
  }

  lemma SealingMatches(sha: Content -> Digest, m: seq<J.Identity>, s: Stage)
    requires Sealing(sha, m, s, 0)
    ensures s.journal.Some? && |s.journal.value.entries| == |m|
    ensures forall i :: 0 <= i < |m| ==> s.journal.value.entries[i].id == m[i] && s.journal.value.entries[i].p.Received?
  {
    forall i | 0 <= i < |m| ensures s.journal.value.entries[i].id == m[i] && s.journal.value.entries[i].p.Received? {
      JournalReceived(sha, m, s.journal.value, i);
      EntryFacts(sha, m, s.journal.value, i);
    }
  }

  /** A live stage past its last entry has every file complete. */
  lemma AllReceived(sha: Content -> Digest, m: seq<J.Identity>, s: Stage)
    requires Core(sha, m, s) && s.next == |m| && s.file.None?
    ensures s.journal.Some? && AllComplete(s.journal.value.entries) && |s.journal.value.entries| == |m|
    ensures forall i :: 0 <= i < |m| && IsFile(m, i) ==> i in s.hashes
    ensures forall i :: i in s.hashes ==> 0 <= i < |m| && IsFile(m, i)
  {
    forall i | 0 <= i < |m| ensures s.journal.value.entries[i].id == m[i] {
      EntryFacts(sha, m, s.journal.value, i);
    }
  }

  /** The journal turns to finalizing exactly when its present state may. */
  lemma StartSealing(sha: Content -> Digest, m: seq<J.Identity>, s: Stage, nowNs: int)
    requires Core(sha, m, s) && s.next == |m| && s.file.None? && s.journal.Some? && 0 <= nowNs <= UINT64_MAX
    ensures AllComplete(s.journal.value.entries)
    ensures var j := s.journal.value; var r := NextState(sha, j, J.Finalizing, nowNs);
      && (r.Ok? <==> j.generation < UINT64_MAX)
      && (r.Ok? ==>
            && (J.TransitionFault(j, r.value).None? <==> j.state in {J.Created, J.Transferring, J.Paused, J.WaitingReconnect, J.Verifying, J.Finalizing})
            && r.value.generation == j.generation + 1
            && Sealing(sha, m, Stored(s, r.value).(phase := Finalizing), 0))
  {
    var j := s.journal.value;
    AllReceived(sha, m, s);
    CoreFacts(sha, m, s);
    LiveHeader(sha, m, s);
    StateChangeDecides(sha, m, s, J.Finalizing, nowNs);
    if j.generation < UINT64_MAX {
      StateStep(sha, m, s.disk, J.Finalizing, None, nowNs);
      SealingEntries(sha, m, s, NextState(sha, j, J.Finalizing, nowNs).value);
    }
  }

  lemma SealingEntries(sha: Content -> Digest, m: seq<J.Identity>, s: Stage, next: J.Journal)
    requires Core(sha, m, s) && s.next == |m| && s.file.None? && s.journal.Some?
    requires Recoverable(sha, m, WithJournal(s.disk, next)) && next.entries == s.journal.value.entries && next.state == J.Finalizing
    ensures Sealing(sha, m, Stored(s, next).(phase := Finalizing), 0)
  {
    hide Recoverable;
  }

  lemma SealOne(sha: Content -> Digest, m: seq<J.Identity>, s: Stage, k: nat)
    requires Sealing(sha, m, s, k) && k < |m|
    ensures IsFile(m, k) && k !in s.disk.verified ==>
      k in s.disk.parts && Sealing(sha, m, s.(disk := Renamed(s.disk, k)), k + 1) && Rest(sha, m, s.(disk := Renamed(s.disk, k)))
    ensures !IsFile(m, k) || k in s.disk.verified ==> Sealing(sha, m, s, k + 1)
    ensures s.journal.Some? && |s.journal.value.entries| == |m| && Rest(sha, m, s)
    ensures IsFile(m, k) ==> NameAgrees(s, k)
  {
    hide J.Published;
    EntryFacts(sha, m, s.journal.value, k);
    assert FileHeld(sha, s.journal.value.entries[k], s.disk, k);
    if IsFile(m, k) && k !in s.disk.verified {
      RenameKeeps(sha, m, s.disk, k);
    }
    hide Recoverable;
  }

  /** The hashes in memory are exactly the evidence the journal needs to call every file verified. */
  lemma SealedEvidence(sha: Content -> Digest, m: seq<J.Identity>, s: Stage, nowNs: int)
    requires Sealing(sha, m, s, |m|) && 0 <= nowNs <= UINT64_MAX
    ensures s.journal.Some?
    ensures var r := J.FinalizeIncoming(sha([]), s.journal.value, s.hashes, nowNs);
      && (r.Ok? <==> s.journal.value.generation < UINT64_MAX)
      && (r.Ok? ==>
            && J.TransitionFault(s.journal.value, r.value).None? && r.value.generation == s.journal.value.generation + 1
            && Sound(sha, m, WithJournal(s.disk, r.value)) && r.value.state == J.Finalizing && r.value.entries == J.AllVerified(s.journal.value.entries)
            && forall i :: 0 <= i < |r.value.entries| ==> J.Published(r.value.entries[i]))
  {
    var j := s.journal.value;
    forall i | 0 <= i < |m| ensures IsFile(m, i) <==> j.entries[i].id.kind == J.File
      ensures IsFile(m, i) ==> i in s.hashes && J.Evidenced(j.entries[i], s.hashes[i])
    {
      EntryFacts(sha, m, j, i);
    }
    assert s.hashes.Keys == J.FileIndices(j.entries);
    assert j.state == J.Finalizing;
    if j.generation < UINT64_MAX {
      FinalizeExactly(sha, m, s.disk, s.hashes, nowNs);
    }
  }

  /** What lies under the verified names hashes to what the sender vouched for. */
  lemma SealedContent(sha: Content -> Digest, m: seq<J.Identity>, s: Stage, i: nat)
    requires Sealing(sha, m, s, |m|) && IsFile(m, i)
    ensures i in s.disk.verified && i !in s.disk.parts && i in s.hashes
    ensures |s.disk.verified[i]| == m[i].size && sha(s.disk.verified[i]) == s.hashes[i]
  {
    EntryFacts(sha, m, s.journal.value, i);
    assert FileHeld(sha, s.journal.value.entries[i], s.disk, i);
  }

  function SizeOf(m: seq<J.Identity>): int {
    if m == [] then 0 else SizeOf(m[..|m| - 1]) + (var e := m[|m| - 1]; if e.kind == J.File then e.size else 0)
  }

  /** When the first `k` files are complete and no other, what is complete is the first `k` entries. */
  lemma {:induction false} DoneIsSize(es: seq<J.Entry>, m: seq<J.Identity>, k: nat)
    requires |es| == |m| && k <= |m| && forall i :: 0 <= i < |m| ==> es[i].id == m[i]
    requires forall i :: 0 <= i < |m| && IsFile(m, i) ==> (Through(es[i]) <==> i < k)
    ensures DoneBytes(es) == SizeOf(m[..k])
    decreases |m|
  {
    if m != [] {
      var n := |m| - 1;
      assert m[..n][..if k <= n then k else n] == m[..if k <= n then k else n];
      DoneIsSize(es[..n], m[..n], if k <= n then k else n);
      assert IsFile(m, n) <==> m[n].kind == J.File;
      if k == |m| {
        assert m[..k] == m;
      }
    }
  }

  lemma {:induction false} SizeBefore(m: seq<J.Identity>, k: nat)
    requires k < |m| && forall i :: 0 <= i < |m| ==> m[i].size >= 0
    ensures 0 <= SizeOf(m[..k]) && SizeOf(m[..k]) + (if m[k].kind == J.File then m[k].size else 0) <= SizeOf(m)
    decreases |m|
  {
    var n := |m| - 1;
    if k < n {
      assert m[..n][..k] == m[..k];
      SizeBefore(m[..n], k);
    } else if n > 0 {
      SizeBefore(m[..n], n - 1);
    }
  }

  /** While receiving, the bytes counted are those of all files before the present one and what arrived of
      it, never more than the transfer holds, and all of it once every entry is passed. */
  lemma ReceivedSoFar(sha: Content -> Digest, m: seq<J.Identity>, s: Stage)
    requires StageInv(sha, m, s) && s.phase == Receiving
    ensures s.next <= |m| && s.bytesDone == SizeOf(m[..s.next]) + s.offset && 0 <= s.bytesDone <= SizeOf(m)
    ensures s.next == |m| ==> s.bytesDone == SizeOf(m)
  {
    InvIsLive(sha, m, s);
    CoreFacts(sha, m, s);
    var es := s.journal.value.entries;
    forall i | 0 <= i < |m| ensures m[i].size >= 0 {
      EntryFacts(sha, m, s.journal.value, i);
    }
    DoneIsSize(es, m, s.next);
    if s.next < |m| {
      SizeBefore(m, s.next);
    } else {
      assert m[..s.next] == m;
      if m != [] {
        SizeBefore(m, 0);
      }
    }
  }

  lemma SealingState(sha: Content -> Digest, m: seq<J.Identity>, s: Stage, k: nat)
    requires Sealing(sha, m, s, k)
    ensures s.disk.journal.Some? && s.disk.journal.value.state == J.Finalizing
  {
  }

  lemma StateIs(sha: Content -> Digest, j: J.Journal, state: J.State, nowNs: int)
    ensures NextState(sha, j, state, nowNs).Ok? ==> NextState(sha, j, state, nowNs).value.state == state
  {
  }

  lemma SealingRest(sha: Content -> Digest, m: seq<J.Identity>, s: Stage, k: nat)
    requires Sealing(sha, m, s, k)
    ensures Rest(sha, m, s) && Sound(sha, m, s.disk) && Owned(s) && s.journal.Some? && s.journal == s.disk.journal && s.disk.present
    ensures StageInv(sha, m, s) && |s.journal.value.entries| == |m|
  {
  }

  /** What holds in every phase does not depend on the phase or on the hasher. */
  lemma PhaseRest(sha: Content -> Digest, m: seq<J.Identity>, s: Stage, s': Stage)
    requires Rest(sha, m, s) && s'.disk == s.disk && s'.journal == s.journal
    ensures Rest(sha, m, s') && (s'.phase != Receiving && s'.file.None? ==> StageInv(sha, m, s'))
  {
  }

  lemma RestIsInv(sha: Content -> Digest, m: seq<J.Identity>, s: Stage)
    requires Rest(sha, m, s) && s.phase != Receiving && s.file.None?
    ensures StageInv(sha, m, s)
  {
  }

  /** Whether or not the last generation was stored, what lies on disk is sound. */
  lemma SealedRest(sha: Content -> Digest, m: seq<J.Identity>, s: Stage, s': Stage, next: J.Journal)
    requires Sealing(sha, m, s, |m|) && Sound(sha, m, WithJournal(s.disk, next)) && next.generation == s.journal.value.generation + 1
    requires next.state == J.Finalizing
    requires s'.file.None? && (s'.disk == s.disk || s'.disk == WithJournal(s.disk, next))
    requires s'.journal == s.journal || (s'.disk == WithJournal(s.disk, next) && s'.journal == Some(next))
    ensures Rest(sha, m, s') && (s'.phase != Receiving ==> StageInv(sha, m, s')) && s'.disk.journal.Some?
    ensures Recoverable(sha, m, s'.disk)
  {
  }

  lemma InvRest(sha: Content -> Digest, m: seq<J.Identity>, s: Stage)
    requires StageInv(sha, m, s)
    ensures Rest(sha, m, s) && (s.phase != Receiving ==> s.file.None?)
  {
  }

  /** A finalizing journal whose files are all published may complete. */
  lemma CompletingAllowed(sha: Content -> Digest, m: seq<J.Identity>, s: Stage, nowNs: int)
    requires Rest(sha, m, s) && s.journal.Some? && s.disk.journal == s.journal && Recoverable(sha, m, s.disk)
    requires s.journal.value.state == J.Finalizing && 0 <= nowNs <= UINT64_MAX
    requires forall i :: 0 <= i < |s.journal.value.entries| ==> J.Published(s.journal.value.entries[i])
    ensures var j := s.journal.value; var r := NextState(sha, j, J.Completed, nowNs);
      && (r.Ok? <==> j.generation < UINT64_MAX)
      && (r.Ok? ==> r.value.state == J.Completed && J.TransitionFault(j, r.value).None?)
  {
    if s.journal.value.generation < UINT64_MAX {
      StateStep(sha, m, s.disk, J.Completed, None, nowNs);
    }
  }

  /** The journal turned completed, and part of the stage may be removed already. */
  predicate Completing(d: Disk, d': Disk) {
    && d.journal.Some? && d'.journal.Some? && d'.journal.value.state == J.Completed
    && (var j := d'.journal.value;
        d.journal.value == j.(state := d.journal.value.state, generation := d.journal.value.generation, updatedNs := d.journal.value.updatedNs))
    && Removing(d.(journal := d'.journal), d')
  }

  lemma CompletedNext(sha: Content -> Digest, d: Disk, nowNs: int)
    requires d.journal.Some?
    ensures var r := NextState(sha, d.journal.value, J.Completed, nowNs); r.Ok? ==> Completing(d, WithJournal(d, r.value))
  {
  }

  lemma CompletingOn(d: Disk, done: Disk)
    requires Completing(d, done)
    ensures forall e :: Removing(done, e) ==> Completing(d, e)
  {
  }

  lemma EndedRest(sha: Content -> Digest, m: seq<J.Identity>, s: Stage, d: Disk)
    requires Rest(sha, m, s) && s.phase != Receiving && s.file.None?
    requires s.disk.journal.Some? && s.disk.journal.value.state in {J.Completed, J.Purging} && (d.journal == s.disk.journal || d.journal.None?)
    ensures Sound(sha, m, d) && StageInv(sha, m, s.(disk := d)) && Ended(d) && Ended(s.disk)
  {
  }

  /** The hashes the journal holds for its complete files. */
  function Receipts(es: seq<J.Entry>): map<int, Digest> {
    map i | 0 <= i < |es| && es[i].id.kind == J.File && es[i].p.Received? && es[i].p.receiver.Some? :: es[i].p.receiver.value
  }

  lemma CompleteIsPassed(sha: Content -> Digest, m: seq<J.Identity>, s: Stage, k: nat)
    requires Core(sha, m, s) && s.journal.Some? && AllComplete(s.journal.value.entries) && IsFile(m, k)
    ensures k < s.next
  {
    EntryFacts(sha, m, s.journal.value, k);
  }

  /** A live stage with a finalizing journal has everything, and its journal vouches for it. */
  lemma FinalizingComplete(sha: Content -> Digest, m: seq<J.Identity>, s: Stage)
    requires StageInv(sha, m, s) && s.phase == Receiving && s.journal.Some? && s.journal.value.state == J.Finalizing
    ensures s.next == |m| && s.file.None? && AllComplete(s.journal.value.entries) && |s.journal.value.entries| == |m|
    ensures forall i :: i in Receipts(s.journal.value.entries) <==> IsFile(m, i)
    ensures forall i :: IsFile(m, i) ==> i in s.hashes && s.hashes[i] == Receipts(s.journal.value.entries)[i]
  {
    CoreFacts(sha, m, s);
    var es := s.journal.value.entries;
    forall k | IsFile(m, k) ensures k < s.next {
      CompleteIsPassed(sha, m, s, k);
    }
    forall i | 0 <= i < |m| ensures IsFile(m, i) ==> Through(es[i]) && es[i].p.receiver.Some? {
      EntryFacts(sha, m, s.journal.value, i);
    }
    AllReceived(sha, m, s);
  }

  // ---------------------------------------------------------------- timeouts

  /** The phase whose wait bounds each phase of the stage. */
  predicate Aligned(wait: T.Phase, phase: Phase) {
    match phase
    case Receiving => wait in {T.Preflight, T.Receiving, T.Finalizing}
    case Finalizing => wait == T.Finalizing
    case Completed => wait == T.Completed
    case Paused => wait == T.Paused
    case WaitingReconnect => wait == T.WaitingReconnect
    case Cancelled => wait == T.Cancelled
    case Failed => wait in {T.Failed, T.Finalizing}
    case Purged => wait == T.Purged
  }

  /** A checkpoint before a pause can be recorded exactly when something was written. */
  lemma PauseFacts(sha: Content -> Digest, m: seq<J.Identity>, s: Stage)
    requires StageInv(sha, m, s) && s.phase == Receiving
    ensures s.journal.Some? && (s.file.Some? ==> s.next < |s.journal.value.entries|)
    ensures s.file.Some? && s.journal.value.generation < UINT64_MAX ==> (CanUpdate(sha, s, false) <==> s.hashed != [])
    ensures s.file.Some? && s.hashed == [] ==> !CanUpdate(sha, s, false)
  {
    CoreFacts(sha, m, s);
  }

  /** A live journal may always be paused. */
  lemma PauseAllowed(sha: Content -> Digest, m: seq<J.Identity>, s: Stage, state: J.State, nowNs: int)
    requires StageInv(sha, m, s) && s.phase == Receiving && 0 <= nowNs <= UINT64_MAX && state in {J.Paused, J.WaitingReconnect}
    ensures s.journal.Some? && s.disk.journal == s.journal
    ensures var j := s.journal.value; var r := NextState(sha, j, state, nowNs);
      && (r.Ok? <==> j.generation < UINT64_MAX)
      && (r.Ok? ==> J.TransitionFault(j, r.value).None? && r.value != j)
  {
    CoreFacts(sha, m, s);
    LiveHeader(sha, m, s);
    StateChangeDecides(sha, m, s, state, nowNs);
    if s.journal.value.generation < UINT64_MAX {
      StateStep(sha, m, s.disk, state, None, nowNs);
    }
  }

  lemma InvFrame(sha: Content -> Digest, m: seq<J.Identity>, s: Stage, s': Stage)
    requires StageInv(sha, m, s) && Rest(sha, m, s') && s' == s.(disk := s'.disk)
    requires s'.disk == s.disk || s.phase != Receiving
    ensures StageInv(sha, m, s')
  {
  }

  /** The stored journal is one generation ahead of the one in memory, paused, with the same entries. */
  predicate Overtaken(journal: Option<J.Journal>, d: Disk) {
    && journal.Some? && d.journal.Some? && d.journal.value.generation == journal.value.generation + 1
    && d.journal.value.entries == journal.value.entries && d.journal.value.state in {J.Paused, J.WaitingReconnect}
  }

  lemma StaleJournal(sha: Content -> Digest, m: seq<J.Identity>, s: Stage, s': Stage, state: J.State, nowNs: int)
    requires StageInv(sha, m, s) && s.phase == Receiving && s'.journal == s.journal && s'.disk != s.disk && Rest(sha, m, s')
    requires s.journal.Some? && NextState(sha, s.journal.value, state, nowNs).Ok? && state in {J.Paused, J.WaitingReconnect}
    requires s'.disk == WithJournal(s.disk, NextState(sha, s.journal.value, state, nowNs).value)
    ensures Overtaken(s'.journal, s'.disk) && Recoverable(sha, m, s'.disk)
  {
    CoreFacts(sha, m, s);
  }

  /** Closing the open part loses nothing that is held. */
  lemma LeaveHeld(sha: Content -> Digest, m: seq<J.Identity>, s: Stage, s': Stage)
    requires StageInv(sha, m, s) && s'.disk.parts == s.disk.parts && s'.disk.verified == s.disk.verified && s'.file == s.file && s'.hashed == s.hashed
    ensures forall phase, k :: SameHeld(s, s'.(file := None, hashed := [], phase := phase, next := k))
    ensures SameHeld(s, s'.(file := None, hashed := []))
  {
    if s.phase == Receiving && s.file.Some? {
      NextIsOpen(sha, m, s);
      assert FileHeld(sha, s.journal.value.entries[s.next], s.disk, s.next);
    }
  }

  /** Only a full generation counter keeps a live stage from being marked. */
  lemma OnlyOverflow(sha: Content -> Digest, m: seq<J.Identity>, s: Stage, state: J.State, nowNs: int)
    requires StageInv(sha, m, s) && s.phase == Receiving && 0 <= nowNs <= UINT64_MAX && state in {J.Cancelled, J.Purging, J.Failed}
    ensures s.journal.Some? && (NextState(sha, s.journal.value, state, nowNs).Ok? <==> s.journal.value.generation < UINT64_MAX)
  {
    CoreFacts(sha, m, s);
    LiveHeader(sha, m, s);
    StateChangeDecides(sha, m, s, state, nowNs);
  }

  /** A journal that is not over may always be paused, cancelled or failed, while generations last. */
  lemma StopAllowed(sha: Content -> Digest, m: seq<J.Identity>, s: Stage, state: J.State, nowNs: int)
    requires Rest(sha, m, s) && 0 <= nowNs <= UINT64_MAX && state in {J.Paused, J.WaitingReconnect, J.Cancelled, J.Failed}
    ensures s.journal.Some? && s.disk.journal == s.journal && !(s.journal.value.state in {J.Completed, J.Cancelled, J.Purging}) ==>
      var r := NextState(sha, s.journal.value, state, nowNs);
      (r.Ok? <==> s.journal.value.generation < UINT64_MAX) && (r.Ok? ==> J.TransitionFault(s.journal.value, r.value).None?)
  {
    if s.journal.Some? && s.disk.journal == s.journal && !(s.journal.value.state in {J.Completed, J.Cancelled, J.Purging}) {
      StateChangeDecides(sha, m, s, state, nowNs);
    }
  }

  /** Any journal may be purged. */
  lemma PurgingAllowed(sha: Content -> Digest, m: seq<J.Identity>, s: Stage, nowNs: int)
    requires Rest(sha, m, s) && s.journal.Some? && 0 <= nowNs <= UINT64_MAX
    ensures s.disk.journal == s.journal && s.disk.present && Recoverable(sha, m, s.disk) && s.journal.value.generation < UINT64_MAX ==>
      var r := NextState(sha, s.journal.value, J.Purging, nowNs);
      r.Ok? && J.TransitionFault(s.journal.value, r.value).None?
    ensures NextState(sha, s.journal.value, J.Purging, nowNs).Ok? ==> NextState(sha, s.journal.value, J.Purging, nowNs).value.state == J.Purging
  {
    if s.disk.journal == s.journal && s.disk.present && Recoverable(sha, m, s.disk) {
      StateChangeDecides(sha, m, s, J.Purging, nowNs);
    }
  }

  /** Once the journal is purging, the stage and then the journal may go. */
  lemma GoneRest(sha: Content -> Digest, m: seq<J.Identity>, s: Stage)
    requires Rest(sha, m, s) && s.disk.journal.Some? && s.disk.journal.value.state == J.Purging
    ensures Ended(s.disk)
    ensures forall j :: j == s.disk.journal || j == None ==>
      Sound(sha, m, Disk(false, map[], map[], j)) && Rest(sha, m, s.(disk := Disk(false, map[], map[], j)))
  {
  }

  /** A stage whose purge failed is over or still has what its journal counts on. */
  lemma RestLeaves(sha: Content -> Digest, m: seq<J.Identity>, s: Stage)
    requires Rest(sha, m, s) && s.journal.Some?
    ensures Leftover(sha, m, s.disk) || Ended(s.disk)
  {
    RecoverableIs(sha, m, s.disk);
  }

  lemma RemovedRest(sha: Content -> Digest, m: seq<J.Identity>, s: Stage)
    requires (Leftover(sha, m, s.disk) || Ended(s.disk)) && s.journal.None?
    ensures Rest(sha, m, s)
  {
  }

  lemma ForgottenRest(sha: Content -> Digest, m: seq<J.Identity>, s: Stage, s': Stage)
    requires Rest(sha, m, s) && s' == s.(journal := None)
    ensures Rest(sha, m, s')
  {
  }

  lemma ClosedTwice(sha: Content -> Digest, m: seq<J.Identity>, s: Stage, s': Stage)
    requires StageInv(sha, m, s) && s.file.None? && s' == s.(hashed := [])
    ensures StageInv(sha, m, s')
  {
  }

  /** An incomplete file met while reading was incomplete from the start. */
  lemma NotAllComplete(sha: Content -> Digest, m: seq<J.Identity>, a: Stage, here: Stage)
    requires Reading(sha, m, here) && a.journal.Some? && Unread(a, here, here.next) && IsFile(m, here.next)
    requires here.next < |here.journal.value.entries| && !Through(here.journal.value.entries[here.next])
    ensures !AllComplete(a.journal.value.entries)
  {
    EntryFacts(sha, m, here.journal.value, here.next);
    assert here.journal.value.entries[here.next] == a.journal.value.entries[here.next];
  }
}
