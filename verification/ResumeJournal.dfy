/** The persistent resume journal: its validity, its updates and the transitions a store accepts. */
module ResumeJournal {
  import opened Common

  const SCHEMA_VERSION := 2
  const MAX_ENTRIES: int := 200_000

  datatype Code =
    | InvalidJournal | InvalidGeometry | UnsupportedSchema | FutureSchema | DirectionMismatch
    | GenerationOverflow | GenerationConflict | IdentityMismatch | InvalidTransition
    | ResumeMismatch | NonDurableResume
    | NotFound | AlreadyExists | MigrationConflict | StoreIo

  datatype Direction = Incoming | Outgoing
  datatype Kind = File | Directory
  datatype Storage = Missing | Partial | Verified | DirectoryStorage
  datatype State =
    | Created | Preflight | Accepted | SendingManifest | Transferring | Paused | WaitingReconnect
    | Verifying | Finalizing | Completed | Cancelled | Failed | Purging

  /** What never changes about an entry. The fingerprint is opaque. */
  datatype Identity = Identity(index: int, kind: Kind, size: int, fingerprint: nat, expected: Option<Digest>)

  datatype Progress =
    | Sent(verified: int, durable: int)
    | Received(verified: int, durable: int, prefix: Option<Digest>, completed: bool,
               receiver: Option<Digest>, storage: Storage)

  datatype Entry = Entry(id: Identity, p: Progress)

  /** Peer, profile, provider, item, item revision and manifest of the transfer, as one value. */
  datatype Binding = Binding(peer: nat, profile: nat, provider: nat, item: nat, revision: nat, manifest: Digest)

  datatype Journal = Journal(
    schema: int, direction: Direction, transfer: TransferId, generation: int, binding: Binding,
    totalSize: int, fileCount: int, directoryCount: int, createdNs: int, updatedNs: int,
    state: State, retryCount: int, entries: seq<Entry>)

  predicate Uint(x: int) {
    0 <= x <= UINT64_MAX
  }

  // ---------------------------------------------------------------- entries

  /** The checks of one entry that do not depend on its neighbours' progress. */
  predicate ShapeOk(dir: Direction, i: nat, e: Entry) {
    && (dir == Incoming <==> e.p.Received?)
    && e.id.index == i < MAX_ENTRIES
    && Uint(e.id.size) && (e.id.kind == Directory ==> e.id.size == 0 && e.id.expected.None?)
    && Uint(e.p.verified) && Uint(e.p.durable)
  }

  predicate HasProgress(e: Entry) {
    e.p.verified != 0 || e.p.durable != 0 || (e.p.Received? && e.p.completed)
  }

  /** Everything an entry after this one needs of it: the file is through. */
  predicate Through(e: Entry) {
    if e.p.Received? then e.p.completed else e.p.durable == e.id.size && e.p.verified == e.id.size
  }

  predicate DirectoryGeometry(e: Entry) {
    && e.p.verified == 0 && e.p.durable == 0
    && (e.p.Received? ==> e.p.prefix.None? && e.p.receiver.None? && e.p.completed && e.p.storage == DirectoryStorage)
  }

  /** The hash of the empty file is a parameter: SHA-256 itself is not modelled. */
  predicate CompletedGeometry(empty: Digest, e: Entry)
    requires e.p.Received?
  {
    && e.p.verified == e.id.size && e.p.durable == e.id.size
    && e.p.receiver.Some? && e.p.prefix == e.p.receiver && e.p.storage in {Partial, Verified}
    && (e.id.expected.Some? ==> e.id.expected == e.p.receiver)
    && (e.id.size == 0 ==> e.p.prefix == Some(empty))
  }

  predicate OpenGeometry(e: Entry)
    requires e.p.Received?
  {
    && e.p.receiver.None?
    && e.p.storage == (if e.p.verified != 0 || e.p.durable != 0 then Partial else Missing)
    && (e.p.durable > 0 <==> e.p.prefix.Some?)
  }

  predicate FileGeometry(empty: Digest, e: Entry) {
    e.p.Received? ==> if e.p.completed then CompletedGeometry(empty, e) else OpenGeometry(e)
  }

  predicate GeometryOk(empty: Digest, e: Entry) {
    && e.p.durable <= e.p.verified <= e.id.size
    && (if e.id.kind == Directory then DirectoryGeometry(e) else FileGeometry(empty, e))
  }

  datatype Totals = Totals(size: int, files: nat, directories: nat)

  function Counted(t: Totals, e: Entry): Totals {
    if e.id.kind == File then t.(size := t.size + e.id.size, files := t.files + 1)
    else t.(directories := t.directories + 1)
  }

  function TotalsOf(es: seq<Entry>): Totals {
    if es == [] then Totals(0, 0, 0) else Counted(TotalsOf(es[..|es| - 1]), es[|es| - 1])
  }

  /** The first complaint about entry `i`, given what the entries before it left behind. */
  function EntryFault(empty: Digest, dir: Direction, i: nat, e: Entry, blocked: bool, t: Totals): Option<Code> {
    if !ShapeOk(dir, i, e) || Counted(t, e).size > UINT64_MAX then Some(InvalidJournal)
    else if !GeometryOk(empty, e) || (e.id.kind == File && blocked && HasProgress(e)) then Some(InvalidGeometry)
    else None
  }

  /** What the entries must satisfy, each and together: every file with any progress comes after
      files that are all through. */
  ghost predicate EntriesValid(empty: Digest, dir: Direction, es: seq<Entry>) {
    && |es| <= MAX_ENTRIES
    && (forall i {:trigger es[i]} :: 0 <= i < |es| ==> ShapeOk(dir, i, es[i]) && GeometryOk(empty, es[i]))
    && TotalsOf(es).size <= UINT64_MAX
    && SequentialFiles(es)
  }

  ghost predicate SequentialFiles(es: seq<Entry>) {
    forall j, k :: 0 <= j < k < |es| && es[j].id.kind == File && es[k].id.kind == File && HasProgress(es[k]) ==> Through(es[j])
  }

  predicate Blocked(es: seq<Entry>) {
    exists j :: 0 <= j < |es| && es[j].id.kind == File && !Through(es[j])
  }

  /** The complaint about the first bad entry. */
  function EntriesFault(empty: Digest, dir: Direction, es: seq<Entry>): Option<Code> {
    if |es| > MAX_ENTRIES then Some(InvalidJournal)
    else if es == [] then None
    else
      var n := |es| - 1;
      var before := EntriesFault(empty, dir, es[..n]);
      if before.Some? then before else EntryFault(empty, dir, n, es[n], Blocked(es[..n]), TotalsOf(es[..n]))
  }

  /** The one pass over the entries, with its running totals and its `blocked` flag, accepts exactly
      the valid entry lists. */
  method ValidateEntries(empty: Digest, dir: Direction, es: seq<Entry>) returns (r: Result<Totals, Code>)
    ensures r.Ok? <==> EntriesValid(empty, dir, es)
    ensures r.Ok? ==> r.value == TotalsOf(es)
    ensures r.Err? ==> EntriesFault(empty, dir, es) == Some(r.error)
  {
    if |es| > MAX_ENTRIES {
      return Err(InvalidJournal);
    }
    var totals, blocked, i := Totals(0, 0, 0), false, 0;
    while i < |es|
      invariant 0 <= i <= |es|
      invariant totals == TotalsOf(es[..i]) && blocked == Blocked(es[..i])
      invariant EntriesValid(empty, dir, es[..i])
    {
      var e := es[i];
      EntryDecides(empty, dir, es, i);
      FaultOfPrefix(empty, dir, es, i);
      if !ShapeOk(dir, i, e) {
        return Err(InvalidJournal);
      }
      totals := Counted(totals, e);
      if totals.size > UINT64_MAX {
        return Err(InvalidJournal);
      }
      if !GeometryOk(empty, e) {
        return Err(InvalidGeometry);
      }
      if e.id.kind == File {
        if blocked && HasProgress(e) {
          return Err(InvalidGeometry);
        }
        if !Through(e) {
          blocked := true;
        }
      }
      i := i + 1;
    }
    assert es[..i] == es;
    return Ok(totals);
  }

  /** One step of the pass: the longer list is valid when the shorter is and the entry has no fault. */
  lemma EntryDecides(empty: Digest, dir: Direction, es: seq<Entry>, i: nat)
    requires i < |es| <= MAX_ENTRIES && EntriesValid(empty, dir, es[..i])
    ensures TotalsOf(es[..i + 1]) == Counted(TotalsOf(es[..i]), es[i])
    ensures Blocked(es[..i + 1]) <==> Blocked(es[..i]) || (es[i].id.kind == File && !Through(es[i]))
    ensures EntriesValid(empty, dir, es[..i + 1]) <==>
      EntryFault(empty, dir, i, es[i], Blocked(es[..i]), TotalsOf(es[..i])).None?
    ensures !EntriesValid(empty, dir, es[..i + 1]) ==> !EntriesValid(empty, dir, es)
  {
    var a, b := es[..i], es[..i + 1];
    assert b[..i] == a && b[i] == es[i];
    if EntriesValid(empty, dir, es) {
      PrefixValid(empty, dir, es, i + 1);
    }
    BlockedStep(es, i);
    SequentialStep(es, i);
    hide Blocked, SequentialFiles, ShapeOk, GeometryOk;
    assert forall k :: 0 <= k < |b| ==> b[k] == if k < i then a[k] else es[i];
  }

  /** A list is valid exactly when no entry of it has a fault. */
  lemma {:induction false} ValidMeansNoFault(empty: Digest, dir: Direction, es: seq<Entry>)
    ensures EntriesValid(empty, dir, es) <==> EntriesFault(empty, dir, es).None?
  {
    if 0 < |es| <= MAX_ENTRIES {
      var n := |es| - 1;
      ValidMeansNoFault(empty, dir, es[..n]);
      assert es[..n + 1] == es;
      if EntriesValid(empty, dir, es) {
        PrefixValid(empty, dir, es, n);
      }
      if EntriesValid(empty, dir, es[..n]) {
        EntryDecides(empty, dir, es, n);
      }
    }
  }

  lemma {:induction false} FaultOfPrefix(empty: Digest, dir: Direction, es: seq<Entry>, i: nat)
    requires i < |es| <= MAX_ENTRIES && EntriesValid(empty, dir, es[..i])
    ensures var f := EntryFault(empty, dir, i, es[i], Blocked(es[..i]), TotalsOf(es[..i]));
      f.Some? ==> EntriesFault(empty, dir, es) == f
  {
    var f := EntryFault(empty, dir, i, es[i], Blocked(es[..i]), TotalsOf(es[..i]));
    if f.Some? {
      ValidMeansNoFault(empty, dir, es[..i]);
      assert es[..i + 1][..i] == es[..i];
      assert EntriesFault(empty, dir, es[..i + 1]) == f;
      FaultStays(empty, dir, es, i + 1);
    }
  }

  lemma {:induction false} FaultStays(empty: Digest, dir: Direction, es: seq<Entry>, k: nat)
    requires k <= |es| <= MAX_ENTRIES && EntriesFault(empty, dir, es[..k]).Some?
    ensures EntriesFault(empty, dir, es) == EntriesFault(empty, dir, es[..k])
  {
    if k == |es| {
      assert es[..k] == es;
    } else {
      assert es[..|es| - 1][..k] == es[..k];
      FaultStays(empty, dir, es[..|es| - 1], k);
    }
  }

  lemma BlockedStep(es: seq<Entry>, i: nat)
    requires i < |es|
    ensures Blocked(es[..i + 1]) <==> Blocked(es[..i]) || (es[i].id.kind == File && !Through(es[i]))
  {
    var a, b := es[..i], es[..i + 1];
    assert forall k :: 0 <= k < |b| ==> b[k] == if k < i then a[k] else es[i];
    if Blocked(a) {
      var j :| 0 <= j < |a| && a[j].id.kind == File && !Through(a[j]);
      assert b[j] == a[j];
    }
    if es[i].id.kind == File && !Through(es[i]) {
      assert b[i] == es[i];
    }
  }

  lemma SequentialStep(es: seq<Entry>, i: nat)
    requires i < |es|
    ensures SequentialFiles(es[..i + 1]) <==>
      SequentialFiles(es[..i]) && (es[i].id.kind == File && HasProgress(es[i]) ==> !Blocked(es[..i]))
  {
    var a, b := es[..i], es[..i + 1];
    assert forall k :: 0 <= k < |b| ==> b[k] == if k < i then a[k] else es[i];
    if SequentialFiles(b) {
      assert forall j :: 0 <= j < i ==> a[j] == b[j];
      assert b[i] == es[i];
    }
  }

  lemma {:induction false} PrefixValid(empty: Digest, dir: Direction, es: seq<Entry>, k: nat)
    requires EntriesValid(empty, dir, es) && k <= |es|
    ensures EntriesValid(empty, dir, es[..k])
    decreases |es| - k
  {
    if k == |es| {
      assert es[..k] == es;
    } else {
      PrefixValid(empty, dir, es, k + 1);
      var b := es[..k + 1];
      assert b[..k] == es[..k] && ShapeOk(dir, k, b[k]);
    }
  }

  // ---------------------------------------------------------------- whole journals

  predicate HeaderOk(j: Journal) {
    && Uint(j.generation) && Uint(j.totalSize) && 0 <= j.fileCount <= MAX_ENTRIES && 0 <= j.directoryCount <= MAX_ENTRIES
    && Uint(j.createdNs) && Uint(j.updatedNs) && Uint(j.retryCount) && j.createdNs <= j.updatedNs
  }

  predicate Published(e: Entry) {
    e.id.kind == File && e.p.Received? ==> e.p.completed && e.p.storage == Verified
  }

  function JournalFault(empty: Digest, j: Journal): Option<Code> {
    if j.schema > SCHEMA_VERSION then Some(FutureSchema)
    else if j.schema < 1 then Some(UnsupportedSchema)
    else if !HeaderOk(j) then Some(InvalidJournal)
    else if EntriesFault(empty, j.direction, j.entries).Some? then EntriesFault(empty, j.direction, j.entries)
    else if TotalsOf(j.entries) != Totals(j.totalSize, j.fileCount, j.directoryCount) then Some(InvalidJournal)
    else if j.direction == Incoming && j.state == Completed && exists i :: 0 <= i < |j.entries| && !Published(j.entries[i]) then
      Some(InvalidGeometry)
    else None
  }

  predicate JournalOk(empty: Digest, j: Journal) {
    JournalFault(empty, j).None?
  }

  method ValidateJournal(empty: Digest, j: Journal) returns (r: Option<Code>)
    ensures r == JournalFault(empty, j)
    ensures r.None? <==> ProperJournal(empty, j)
    ensures j.schema > 2 ==> r == Some(FutureSchema)
    ensures j.schema < 1 ==> r == Some(UnsupportedSchema)
  {
    JournalExactly(empty, j);
    hide ProperJournal;
    if j.schema > SCHEMA_VERSION {
      return Some(FutureSchema);
    }
    if j.schema < 1 {
      return Some(UnsupportedSchema);
    }
    if !HeaderOk(j) {
      return Some(InvalidJournal);
    }
    ValidMeansNoFault(empty, j.direction, j.entries);
    var t := ValidateEntries(empty, j.direction, j.entries);
    if t.Err? {
      return Some(t.error);
    }
    if t.value != Totals(j.totalSize, j.fileCount, j.directoryCount) {
      return Some(InvalidJournal);
    }
    if j.direction == Incoming && j.state == Completed && exists i :: 0 <= i < |j.entries| && !Published(j.entries[i]) {
      return Some(InvalidGeometry);
    }
    return None;
  }

  // ---------------------------------------------------------------- what a valid journal is

  ghost predicate InRange(x: int) {
    0 <= x <= 0xFFFF_FFFF_FFFF_FFFF
  }

  /** What one entry may be, kind by kind: a directory stands for itself and is complete, what was sent of a
      file is confirmed up to an offset and durable up to one before it, and a received file is either
      complete, with the hash of all of it, or has a hash exactly of what is durable. */
  ghost predicate EntryProper(empty: Digest, dir: Direction, i: int, e: Entry) {
    && e.id.index == i && 0 <= i < 200_000 && InRange(e.id.size) && (dir == Incoming <==> e.p.Received?)
    && match e.id.kind
       case Directory =>
         && e.id.size == 0 && e.id.expected.None? && e.p.verified == 0 && e.p.durable == 0
         && (e.p.Received? ==> e.p == Received(0, 0, None, true, None, DirectoryStorage))
       case File =>
         && 0 <= e.p.durable <= e.p.verified <= e.id.size
         && (e.p.Received? && e.p.completed ==>
               && e.p.durable == e.id.size && e.p.receiver.Some? && e.p.prefix == e.p.receiver
               && (e.p.storage == Partial || e.p.storage == Verified)
               && (e.id.expected.Some? ==> e.p.receiver == e.id.expected) && (e.id.size == 0 ==> e.p.receiver == Some(empty)))
         && (e.p.Received? && !e.p.completed ==>
               && e.p.receiver.None? && (e.p.durable == 0 <==> e.p.prefix.None?)
               && e.p.storage == if e.p.verified == 0 then Missing else Partial)
  }

  lemma EntryExactly(empty: Digest, dir: Direction, i: nat, e: Entry)
    ensures ShapeOk(dir, i, e) && GeometryOk(empty, e) <==> EntryProper(empty, dir, i, e)
  {
  }

  /** The places of the files, and the sum of the sizes from the front. */
  ghost function FilePlaces(es: seq<Entry>): set<nat> {
    set i: nat | i < |es| && es[i].id.kind == File
  }

  ghost function SizeSum(es: seq<Entry>): int {
    if es == [] then 0 else (if es[0].id.kind == File then es[0].id.size else 0) + SizeSum(es[1..])
  }

  lemma {:induction false} SizeSumLast(es: seq<Entry>)
    requires es != []
    ensures SizeSum(es) == SizeSum(es[..|es| - 1]) + (if es[|es| - 1].id.kind == File then es[|es| - 1].id.size else 0)
  {
    if |es| > 1 {
      SizeSumLast(es[1..]);
      assert es[1..][..|es| - 2] == es[..|es| - 1][1..];
    }
  }

  lemma {:induction false} TotalsAre(es: seq<Entry>)
    ensures TotalsOf(es).size == SizeSum(es) && TotalsOf(es).files == |FilePlaces(es)| && TotalsOf(es).directories == |es| - |FilePlaces(es)|
  {
    if es != [] {
      var n := |es| - 1;
      TotalsAre(es[..n]);
      SizeSumLast(es);
      assert forall i :: 0 <= i < n ==> es[..n][i] == es[i];
      assert FilePlaces(es) == if es[n].id.kind == File then FilePlaces(es[..n]) + {n} else FilePlaces(es[..n]);
    }
  }

  /** A file has any progress only when every file before it has all of its own. */
  ghost predicate OneAfterTheOther(es: seq<Entry>) {
    forall a, b :: 0 <= a < b < |es| && es[a].id.kind == File && es[b].id.kind == File ==>
      || (es[b].p.verified == 0 && es[b].p.durable == 0 && (es[b].p.Received? ==> !es[b].p.completed))
      || (if es[a].p.Received? then es[a].p.completed else es[a].p.durable == es[a].id.size == es[a].p.verified)
  }

  ghost predicate ProperJournal(empty: Digest, j: Journal) {
    && 1 <= j.schema <= 2 && InRange(j.generation) && InRange(j.retryCount) && 0 <= j.createdNs <= j.updatedNs && InRange(j.updatedNs)
    && |j.entries| <= 200_000 && (forall i :: 0 <= i < |j.entries| ==> EntryProper(empty, j.direction, i, j.entries[i]))
    && OneAfterTheOther(j.entries)
    && j.fileCount == |FilePlaces(j.entries)| && j.directoryCount == |j.entries| - |FilePlaces(j.entries)|
    && j.totalSize == SizeSum(j.entries) && InRange(j.totalSize)
    && (j.direction == Incoming && j.state == Completed ==>
          forall i :: 0 <= i < |j.entries| && j.entries[i].id.kind == File ==> j.entries[i].p.Received? && j.entries[i].p.completed && j.entries[i].p.storage == Verified)
  }

  lemma FilesAtMost(es: seq<Entry>)
    ensures 0 <= |FilePlaces(es)| <= |es|
  {
    TotalsAre(es);
  }

  /** The validator's checks, in their order, find nothing exactly in proper journals. */
  lemma JournalExactly(empty: Digest, j: Journal)
    ensures JournalOk(empty, j) <==> ProperJournal(empty, j)
  {
    ValidMeansNoFault(empty, j.direction, j.entries);
    TotalsAre(j.entries);
    FilesAtMost(j.entries);
    EntriesExactly(empty, j.direction, j.entries);
    hide EntriesFault, TotalsOf, EntryProper, OneAfterTheOther, EntriesValid, FilePlaces, SizeSum;
    if forall i :: 0 <= i < |j.entries| ==> EntryProper(empty, j.direction, i, j.entries[i]) {
      AllTyped(empty, j);
    }
  }

  lemma AllTyped(empty: Digest, j: Journal)
    requires forall i :: 0 <= i < |j.entries| ==> EntryProper(empty, j.direction, i, j.entries[i])
    ensures forall i :: 0 <= i < |j.entries| ==> (j.entries[i].p.Received? <==> j.direction == Incoming)
  {
  }

  lemma EntriesExactly(empty: Digest, dir: Direction, es: seq<Entry>)
    ensures EntriesValid(empty, dir, es) <==>
      && |es| <= 200_000 && (forall i :: 0 <= i < |es| ==> EntryProper(empty, dir, i, es[i]))
      && TotalsOf(es).size <= 0xFFFF_FFFF_FFFF_FFFF && OneAfterTheOther(es)
  {
    hide ShapeOk, GeometryOk, EntryProper, TotalsOf;
    forall i: nat | i < |es| ensures ShapeOk(dir, i, es[i]) && GeometryOk(empty, es[i]) <==> EntryProper(empty, dir, i, es[i]) {
      EntryExactly(empty, dir, i, es[i]);
    }
  }

  /** In a valid incoming journal the files split in three: complete ones, then at most one with
      some progress, then untouched ones. */
  lemma CompletedFilesFormAPrefix(empty: Digest, j: Journal, a: nat, b: nat)
    requires JournalOk(empty, j) && j.direction == Incoming
    requires a < b < |j.entries| && j.entries[a].id.kind == File && j.entries[b].id.kind == File
    ensures j.entries[a].p.Received? && j.entries[b].p.Received?
    ensures j.entries[b].p.completed ==> j.entries[a].p.completed
    ensures !j.entries[a].p.completed ==> j.entries[b].p.storage == Missing && j.entries[b].p.verified == 0 == j.entries[b].p.durable
  {
    ValidMeansNoFault(empty, Incoming, j.entries);
    assert ShapeOk(Incoming, a, j.entries[a]) && ShapeOk(Incoming, b, j.entries[b]);
    assert GeometryOk(empty, j.entries[b]);
  }

  // ---------------------------------------------------------------- updates

  /** The next generation of `j` with other entries; the caller's clock and the previous time give
      the new time. */
  function NextJournal(empty: Digest, j: Journal, entries: seq<Entry>, state: State, retryCount: int, nowNs: int): Result<Journal, Code> {
    if JournalFault(empty, j).Some? then Err(JournalFault(empty, j).value)
    else if j.generation == UINT64_MAX then Err(GenerationOverflow)
    else
      var next := j.(generation := j.generation + 1, entries := entries, state := state, retryCount := retryCount,
                     updatedNs := if nowNs > j.updatedNs then nowNs else j.updatedNs);
      if JournalFault(empty, next).Some? then Err(JournalFault(empty, next).value) else Ok(next)
  }

  function WithProgress(j: Journal, i: nat, p: Progress): seq<Entry>
    requires i < |j.entries|
  {
    j.entries[i := j.entries[i].(p := p)]
  }

  function UpdateIncoming(empty: Digest, j: Journal, i: int, p: Progress, state: Option<State>, nowNs: int): Result<Journal, Code> {
    if JournalFault(empty, j).Some? then Err(JournalFault(empty, j).value)
    else if j.direction != Incoming then Err(DirectionMismatch)
    else if !(0 <= i < |j.entries|) then Err(InvalidJournal)
    else if j.entries[i].id.kind != File then Err(InvalidGeometry)
    else NextJournal(empty, j, WithProgress(j, i, p), if state.Some? then state.value else j.state, j.retryCount, nowNs)
  }

  function UpdateState(empty: Digest, j: Journal, state: State, retry: Option<int>, nowNs: int): Result<Journal, Code> {
    NextJournal(empty, j, j.entries, state, if retry.Some? then retry.value else j.retryCount, nowNs)
  }

  /** The next generation is made exactly of a proper journal with generations left when the result is proper;
      its time is the later one. */
  lemma StateUpdateExactly(empty: Digest, j: Journal, state: State, retry: Option<int>, nowNs: int)
    ensures var r := UpdateState(empty, j, state, retry, nowNs);
      var next := j.(generation := j.generation + 1, state := state, retryCount := if retry.Some? then retry.value else j.retryCount,
                     updatedNs := if nowNs > j.updatedNs then nowNs else j.updatedNs);
      && (r.Ok? <==> ProperJournal(empty, j) && j.generation < 0xFFFF_FFFF_FFFF_FFFF && ProperJournal(empty, next))
      && (r.Ok? ==> r.value == next)
  {
    var next := j.(generation := j.generation + 1, state := state, retryCount := if retry.Some? then retry.value else j.retryCount,
                   updatedNs := if nowNs > j.updatedNs then nowNs else j.updatedNs);
    JournalExactly(empty, j);
    JournalExactly(empty, next);
    hide ProperJournal, JournalFault;
  }

  /** The same of progress of one received file: no other entry changes. */
  lemma ProgressUpdateExactly(empty: Digest, j: Journal, i: int, p: Progress, state: Option<State>, nowNs: int)
    ensures var r := UpdateIncoming(empty, j, i, p, state, nowNs);
      && (r.Ok? ==> ProperJournal(empty, j) && j.direction == Incoming && 0 <= i < |j.entries| && j.entries[i].id.kind == File)
      && (ProperJournal(empty, j) && j.direction == Incoming && 0 <= i < |j.entries| && j.entries[i].id.kind == File ==>
            var next := j.(generation := j.generation + 1, entries := j.entries[i := Entry(j.entries[i].id, p)],
                           state := if state.Some? then state.value else j.state, updatedNs := if nowNs > j.updatedNs then nowNs else j.updatedNs);
            && (r.Ok? <==> j.generation < 0xFFFF_FFFF_FFFF_FFFF && ProperJournal(empty, next))
            && (r.Ok? ==> r.value == next))
  {
    JournalExactly(empty, j);
    if 0 <= i < |j.entries| {
      var next := j.(generation := j.generation + 1, entries := j.entries[i := Entry(j.entries[i].id, p)],
                     state := if state.Some? then state.value else j.state, updatedNs := if nowNs > j.updatedNs then nowNs else j.updatedNs);
      JournalExactly(empty, next);
      hide ProperJournal, JournalFault;
      assert j.entries[i].(p := p) == Entry(j.entries[i].id, p);
    }
  }

  /** A file whose bytes are durable and hash to `d`. */
  predicate Evidenced(e: Entry, d: Digest) {
    && e.p.Received? && e.p.completed && e.p.verified == e.id.size && e.p.durable == e.id.size
    && e.p.prefix == Some(d) && e.p.receiver == Some(d)
  }

  function FinalizeIncoming(empty: Digest, j: Journal, hashes: map<int, Digest>, nowNs: int): Result<Journal, Code> {
    if JournalFault(empty, j).Some? then Err(JournalFault(empty, j).value)
    else if j.direction != Incoming then Err(DirectionMismatch)
    else if j.state != Finalizing then Err(InvalidTransition)
    else if hashes.Keys != FileIndices(j.entries) then Err(InvalidGeometry)
    else if exists i :: 0 <= i < |j.entries| && j.entries[i].id.kind == File && i in hashes && !Evidenced(j.entries[i], hashes[i]) then
      Err(InvalidGeometry)
    else NextJournal(empty, j, AllVerified(j.entries), Finalizing, j.retryCount, nowNs)
  }

  /** Every file becomes verified, and nothing else changes, and only in a finalizing journal that has each of
      them complete with the given hash, with no hash given of anything else. */
  lemma FinalUpdateMeans(empty: Digest, j: Journal, hashes: map<int, Digest>, nowNs: int)
    ensures var r := FinalizeIncoming(empty, j, hashes, nowNs);
      && (r.Ok? ==>
            && ProperJournal(empty, j) && j.direction == Incoming && j.state == Finalizing && j.generation < 0xFFFF_FFFF_FFFF_FFFF
            && (forall k :: k in hashes <==> 0 <= k < |j.entries| && j.entries[k].id.kind == File)
            && (forall k :: k in hashes ==> 0 <= k < |j.entries| && j.entries[k].p.Received? && j.entries[k].p.completed && j.entries[k].p.receiver == Some(hashes[k]))
            && ProperJournal(empty, r.value) && |r.value.entries| == |j.entries|
            && r.value == j.(generation := j.generation + 1, entries := r.value.entries, updatedNs := if nowNs > j.updatedNs then nowNs else j.updatedNs)
            && forall k :: 0 <= k < |j.entries| ==>
                 r.value.entries[k] == if j.entries[k].id.kind == File && j.entries[k].p.Received? then Entry(j.entries[k].id, j.entries[k].p.(storage := Verified)) else j.entries[k])
  {
    var r := FinalizeIncoming(empty, j, hashes, nowNs);
    JournalExactly(empty, j);
    if r.Ok? {
      JournalExactly(empty, r.value);
      hide ProperJournal, JournalFault;
      forall k ensures k in hashes <==> 0 <= k < |j.entries| && j.entries[k].id.kind == File {
        assert k in hashes.Keys <==> k in FileIndices(j.entries);
      }
    }
  }

  function FileIndices(es: seq<Entry>): set<int> {
    set i | 0 <= i < |es| && es[i].id.kind == File
  }

  function VerifiedEntry(e: Entry): Entry {
    if e.id.kind == File && e.p.Received? then e.(p := e.p.(storage := Verified)) else e
  }

  function AllVerified(es: seq<Entry>): seq<Entry> {
    seq(|es|, i requires 0 <= i < |es| => VerifiedEntry(es[i]))
  }

  // ---------------------------------------------------------------- transitions

  /** The states a journal may go to from each state. */
  function Successors(s: State): set<State> {
    match s
    case Created => {Created, Preflight, Accepted, SendingManifest, Transferring, Paused, WaitingReconnect, Finalizing,
                     Cancelled, Failed, Purging}
    case Preflight => {Preflight, Accepted, Transferring, Paused, WaitingReconnect, Cancelled, Failed, Purging}
    case Accepted => {Accepted, SendingManifest, Transferring, Paused, WaitingReconnect, Cancelled, Failed, Purging}
    case SendingManifest => {SendingManifest, Transferring, Paused, WaitingReconnect, Cancelled, Failed, Purging}
    case Transferring => {Transferring, Paused, WaitingReconnect, Verifying, Finalizing, Cancelled, Failed, Purging}
    case Paused => {Paused, WaitingReconnect, Transferring, Finalizing, Cancelled, Failed, Purging}
    case WaitingReconnect => {WaitingReconnect, Paused, Transferring, Finalizing, Cancelled, Failed, Purging}
    case Verifying => {Verifying, Finalizing, Paused, WaitingReconnect, Cancelled, Failed, Purging}
    case Finalizing => {Finalizing, Completed, Paused, WaitingReconnect, Cancelled, Failed, Purging}
    case Completed => {Completed, Purging}
    case Cancelled => {Cancelled, Purging}
    case Failed => {Failed, Transferring, Paused, WaitingReconnect, Cancelled, Purging}
    case Purging => {Purging}
  }

  function Rank(s: Storage): nat {
    match s case Missing => 0 case Partial => 1 case Verified => 2 case DirectoryStorage => 3
  }

  /** The first complaint about how one entry changed. */
  function EntryTransitionFault(dir: Direction, a: Entry, b: Entry): Option<Code> {
    if a.id != b.id then Some(IdentityMismatch)
    else if dir == Outgoing then
      if b.p.durable < a.p.durable then Some(InvalidTransition) else None
    else if !a.p.Received? || !b.p.Received? then None
    else if b.p.durable < a.p.durable then Some(InvalidTransition)
    else if a.p.completed && !b.p.completed then Some(InvalidTransition)
    else if a.p.completed && b.p.receiver != a.p.receiver then Some(InvalidTransition)
    else if b.p.durable == a.p.durable && b.p.prefix != a.p.prefix && !(!a.p.completed && b.p.completed && b.id.size == 0) then
      Some(InvalidTransition)
    else if Rank(b.p.storage) < Rank(a.p.storage) then Some(InvalidTransition)
    else if a.p.storage == Verified && b.p.storage != Verified then Some(InvalidTransition)
    else None
  }

  function EntriesTransitionFault(dir: Direction, a: seq<Entry>, b: seq<Entry>): Option<Code> {
    if a == [] || b == [] then None
    else if EntryTransitionFault(dir, a[0], b[0]).Some? then EntryTransitionFault(dir, a[0], b[0])
    else EntriesTransitionFault(dir, a[1..], b[1..])
  }

  function TransitionFault(a: Journal, b: Journal): Option<Code> {
    if (a.schema, a.direction, a.transfer, a.binding, a.totalSize, a.fileCount, a.directoryCount, a.createdNs)
       != (b.schema, b.direction, b.transfer, b.binding, b.totalSize, b.fileCount, b.directoryCount, b.createdNs) then
      Some(IdentityMismatch)
    else if b.generation != a.generation + 1 then Some(GenerationConflict)
    else if b.updatedNs < a.updatedNs || b.retryCount < a.retryCount then Some(InvalidTransition)
    else if b.state !in Successors(a.state) then Some(InvalidTransition)
    else EntriesTransitionFault(a.direction, a.entries, b.entries)
  }

  // ---------------------------------------------------------------- what may follow what

  /** The states a journal may have been in before, for each state it turns to. */
  ghost predicate MayTurn(a: State, b: State) {
    match b
    case Created => a == Created
    case Preflight => a in {Created, Preflight}
    case Accepted => a in {Created, Preflight, Accepted}
    case SendingManifest => a in {Created, Accepted, SendingManifest}
    case Transferring => a in {Created, Preflight, Accepted, SendingManifest, Transferring, Paused, WaitingReconnect, Failed}
    case Verifying => a in {Transferring, Verifying}
    case Finalizing => a in {Created, Transferring, Paused, WaitingReconnect, Verifying, Finalizing}
    case Completed => a in {Finalizing, Completed}
    case Paused | WaitingReconnect | Failed => a !in {Completed, Cancelled, Purging}
    case Cancelled => a !in {Completed, Purging}
    case Purging => true
  }

  lemma SuccessorsTable(a: State, b: State)
    ensures b in Successors(a) <==> MayTurn(a, b)
  {
  }

  ghost predicate EntryFollows(dir: Direction, a: Entry, b: Entry) {
    && a.id == b.id
    && (dir == Outgoing ==> a.p.durable <= b.p.durable)
    && (dir == Incoming && a.p.Received? && b.p.Received? ==>
          && a.p.durable <= b.p.durable
          && (a.p.completed ==> b.p.completed && b.p.receiver == a.p.receiver)
          && (a.p.durable == b.p.durable ==> a.p.prefix == b.p.prefix || (!a.p.completed && b.p.completed && a.id.size == 0))
          && (match a.p.storage
              case Missing => true
              case Partial => b.p.storage != Missing
              case Verified => b.p.storage == Verified
              case DirectoryStorage => b.p.storage == DirectoryStorage))
  }

  /** What one journal may become in one generation: only its time stamp, retries, state and entries
      change, the first two never go back, and the state and every entry change as they may. */
  ghost predicate Follows(a: Journal, b: Journal) {
    && b == a.(generation := a.generation + 1, updatedNs := b.updatedNs, retryCount := b.retryCount, state := b.state, entries := b.entries)
    && a.updatedNs <= b.updatedNs && a.retryCount <= b.retryCount && MayTurn(a.state, b.state)
    && EachFollows(a.direction, a.entries, b.entries)
  }

  ghost predicate EachFollows(dir: Direction, a: seq<Entry>, b: seq<Entry>) {
    forall i :: 0 <= i < |a| && i < |b| ==> EntryFollows(dir, a[i], b[i])
  }

  lemma FirstFollows(dir: Direction, a: seq<Entry>, b: seq<Entry>)
    requires a != [] && b != []
    ensures EachFollows(dir, a, b) <==> EntryFollows(dir, a[0], b[0]) && EachFollows(dir, a[1..], b[1..])
  {
    hide EntryFollows;
    if EntryFollows(dir, a[0], b[0]) && EachFollows(dir, a[1..], b[1..]) {
      forall i | 0 <= i < |a| && i < |b| ensures EntryFollows(dir, a[i], b[i]) {
        assert i > 0 ==> EntryFollows(dir, a[1..][i - 1], b[1..][i - 1]);
      }
    }
  }

  lemma {:induction false} EntriesFollow(dir: Direction, a: seq<Entry>, b: seq<Entry>)
    ensures EntriesTransitionFault(dir, a, b).None? <==> EachFollows(dir, a, b)
  {
    if a != [] && b != [] {
      FirstFollows(dir, a, b);
      EntriesFollow(dir, a[1..], b[1..]);
      hide EachFollows;
    }
  }

  /** The checks of a transition, one after the other, find nothing exactly when the one journal may
      follow the other. */
  lemma FollowsExactly(a: Journal, b: Journal)
    ensures TransitionFault(a, b).None? <==> Follows(a, b)
  {
    EntriesFollow(a.direction, a.entries, b.entries);
    hide EntriesTransitionFault, EachFollows;
  }

  /** The comparison entry by entry, as the store makes it. */
  method ValidateTransition(a: Journal, b: Journal) returns (r: Option<Code>)
    ensures r == TransitionFault(a, b)
    ensures r.None? <==> Follows(a, b)
  {
    FollowsExactly(a, b);
    hide Follows;
    if (a.schema, a.direction, a.transfer, a.binding, a.totalSize, a.fileCount, a.directoryCount, a.createdNs)
       != (b.schema, b.direction, b.transfer, b.binding, b.totalSize, b.fileCount, b.directoryCount, b.createdNs) {
      return Some(IdentityMismatch);
    }
    if b.generation != a.generation + 1 {
      return Some(GenerationConflict);
    }
    if b.updatedNs < a.updatedNs || b.retryCount < a.retryCount {
      return Some(InvalidTransition);
    }
    if b.state !in Successors(a.state) {
      return Some(InvalidTransition);
    }
    var i := 0;
    while i < |a.entries| && i < |b.entries|
      invariant 0 <= i <= |a.entries| && i <= |b.entries|
      invariant EntriesTransitionFault(a.direction, a.entries, b.entries)
             == EntriesTransitionFault(a.direction, a.entries[i..], b.entries[i..])
    {
      assert a.entries[i..][1..] == a.entries[i + 1..] && b.entries[i..][1..] == b.entries[i + 1..];
      var fault := EntryTransitionFault(a.direction, a.entries[i], b.entries[i]);
      if fault.Some? {
        return fault;
      }
      i := i + 1;
    }
    return None;
  }

  /** Schema 1 becomes schema 2 one generation later, and an incoming `completed` becomes
      `finalizing` because schema 2 completion needs an index receipt. */
  function Migrated(j: Journal): Journal {
    j.(schema := SCHEMA_VERSION, generation := j.generation + 1,
       state := if j.direction == Incoming && j.state == Completed then Finalizing else j.state)
  }

  // ---------------------------------------------------------------- what an entry keeps

  /** What no commit takes back from an entry. */
  predicate Kept(a: Entry, b: Entry) {
    && a.id == b.id && a.p.durable <= b.p.durable && (a.p.Received? <==> b.p.Received?)
    && (a.p.Received? && b.p.Received? ==>
          && (a.p.completed ==> b.p.completed && b.p.receiver == a.p.receiver)
          && Rank(a.p.storage) <= Rank(b.p.storage))
  }

  lemma {:induction false} TransitionKeepsEntries(dir: Direction, a: seq<Entry>, b: seq<Entry>, i: nat)
    requires EntriesTransitionFault(dir, a, b).None? && i < |a| && i < |b|
    requires a[i].p.Received? == b[i].p.Received? == (dir == Incoming)
    ensures Kept(a[i], b[i])
  {
    if i > 0 {
      TransitionKeepsEntries(dir, a[1..], b[1..], i - 1);
    }
  }

  lemma {:induction false} TotalsCount(es: seq<Entry>)
    ensures TotalsOf(es).files + TotalsOf(es).directories == |es|
  {
    if es != [] {
      TotalsCount(es[..|es| - 1]);
    }
  }

  /** Journals of the same identity have the same number of entries, although the comparison stops
      at the shorter list: their counts are part of the identity. */
  lemma SameLength(empty: Digest, a: Journal, b: Journal)
    requires JournalOk(empty, a) && JournalOk(empty, b) && TransitionFault(a, b).None?
    ensures |a.entries| == |b.entries|
  {
    TotalsCount(a.entries);
    TotalsCount(b.entries);
  }

  // ---------------------------------------------------------------- runs of one journal

  /** One journal follows another: by a commit, or by the migration a load makes of schema 1. */
  ghost predicate Link(empty: Digest, a: Journal, b: Journal) {
    && JournalOk(empty, a) && JournalOk(empty, b)
    && (if a.schema == 1 then b == Migrated(a) else TransitionFault(a, b).None?)
  }

  /** Every journal ever stored under one name since its creation, in order. */
  ghost predicate Linked(empty: Digest, log: seq<Journal>) {
    && log != [] && (forall i :: 0 <= i < |log| ==> JournalOk(empty, log[i]))
    && forall i {:trigger LinkAt(empty, log, i)} :: 0 <= i < |log| - 1 ==> LinkAt(empty, log, i)
  }

  ghost predicate LinkAt(empty: Digest, log: seq<Journal>, i: nat)
    requires i < |log| - 1
  {
    Link(empty, log[i], log[i + 1])
  }

  ghost predicate AllKept(a: Journal, b: Journal) {
    && |a.entries| == |b.entries|
    && forall i {:trigger a.entries[i]} {:trigger b.entries[i]} :: 0 <= i < |a.entries| ==> Kept(a.entries[i], b.entries[i])
  }

  lemma LinkKeeps(empty: Digest, a: Journal, b: Journal)
    requires Link(empty, a, b)
    ensures AllKept(a, b) && b.generation == a.generation + 1 && b.schema == 2 && a.direction == b.direction
  {
    ValidMeansNoFault(empty, a.direction, a.entries);
    ValidMeansNoFault(empty, b.direction, b.entries);
    if a.schema != 1 {
      SameLength(empty, a, b);
      forall i | 0 <= i < |a.entries| ensures Kept(a.entries[i], b.entries[i]) {
        assert ShapeOk(a.direction, i, a.entries[i]) && ShapeOk(b.direction, i, b.entries[i]);
        TransitionKeepsEntries(a.direction, a.entries, b.entries, i);
      }
    }
  }

  lemma KeptThrough(a: Journal, b: Journal, c: Journal)
    requires AllKept(a, b) && AllKept(b, c)
    ensures AllKept(a, c)
  {
    forall i | 0 <= i < |a.entries| ensures Kept(a.entries[i], c.entries[i]) {
      assert Kept(a.entries[i], b.entries[i]) && Kept(b.entries[i], c.entries[i]);
    }
  }

  /** Over a whole run generations are contiguous, durable offsets and storage never go back,
      complete files stay complete and their hashes never change. */
  lemma {:induction false} NothingRegresses(empty: Digest, log: seq<Journal>, i: nat, j: nat)
    requires Linked(empty, log) && i <= j < |log|
    ensures log[j].generation == log[i].generation + (j - i)
    ensures AllKept(log[i], log[j]) && log[i].direction == log[j].direction
    decreases j - i
  {
    if i < j {
      NothingRegresses(empty, log, i, j - 1);
      assert LinkAt(empty, log, j - 1);
      LinkKeeps(empty, log[j - 1], log[j]);
      hide Kept;
      KeptThrough(log[i], log[j - 1], log[j]);
    }
  }

  /** Two writers that both built on generation `g` cannot both have been accepted. */
  lemma OneWritePerGeneration(empty: Digest, log: seq<Journal>, i: nat, j: nat)
    requires Linked(empty, log) && i < |log| && j < |log| && log[i].generation == log[j].generation
    ensures i == j
  {
    if i <= j {
      NothingRegresses(empty, log, i, j);
    } else {
      NothingRegresses(empty, log, j, i);
    }
  }

  /** `completed` is entered only from `finalizing`. */
  lemma CompletedComesFromFinalizing(empty: Digest, log: seq<Journal>, i: nat)
    requires Linked(empty, log) && i + 1 < |log| && log[i + 1].state == Completed && log[i].state != Completed
    ensures log[i].state == Finalizing
  {
    assert LinkAt(empty, log, i);
  }

  lemma FailedIsNotFinalized(a: Journal, b: Journal)
    requires a.state == Failed && b.state == Finalizing
    ensures !Follows(a, b)
  {
  }

  lemma FailedStep(empty: Digest, a: Journal, b: Journal)
    requires Link(empty, a, b) && a.state in {Failed, Cancelled, Purging}
    ensures b.state in {Failed, Cancelled, Purging, Transferring, Paused, WaitingReconnect}
  {
    hide JournalOk;
  }

  /** A failed transfer is never finalized as it is: something is received, or the transfer is taken up
      again, before its journal turns to finalizing. */
  lemma {:induction false} NoFinalizingAfterFailed(empty: Digest, log: seq<Journal>, i: nat, j: nat)
    requires Linked(empty, log) && i <= j < |log| && log[i].state == Failed
    ensures log[j].state in {Failed, Cancelled, Purging} || exists k :: i < k <= j && log[k].state in {Transferring, Paused, WaitingReconnect}
    ensures log[j].state == Finalizing ==> exists k :: i < k < j && log[k].state in {Transferring, Paused, WaitingReconnect}
    decreases j - i
  {
    hide Link, JournalOk;
    if i < j {
      NoFinalizingAfterFailed(empty, log, i, j - 1);
      assert LinkAt(empty, log, j - 1);
      if log[j - 1].state in {Failed, Cancelled, Purging} {
        FailedStep(empty, log[j - 1], log[j]);
      }
    }
  }

  lemma TerminalStep(empty: Digest, a: Journal, b: Journal)
    requires Link(empty, a, b) && a.schema == 2 && a.state in {Completed, Cancelled, Purging}
    ensures b.schema == 2 && b.state in {a.state, Purging}
  {
    hide JournalOk;
  }

  /** A completed, cancelled or purging schema-2 journal never does anything but stay or be purged. */
  lemma {:induction false} TerminalStates(empty: Digest, log: seq<Journal>, i: nat, j: nat)
    requires Linked(empty, log) && i <= j < |log| && log[i].schema == 2
    requires log[i].state in {Completed, Cancelled, Purging}
    ensures log[j].state in {log[i].state, Purging} && log[j].schema == 2
    decreases j - i
  {
    hide Link, JournalOk;
    if i < j {
      TerminalStates(empty, log, i, j - 1);
      assert LinkAt(empty, log, j - 1);
      TerminalStep(empty, log[j - 1], log[j]);
    }
  }

  /** Only the first journal of a run can still have the old schema. */
  lemma OldSchemaIsFirst(empty: Digest, log: seq<Journal>, i: nat)
    requires Linked(empty, log) && 0 < i < |log|
    ensures log[i].schema == 2
  {
    assert LinkAt(empty, log, i - 1);
    LinkKeeps(empty, log[i - 1], log[i]);
  }

  /** In a completed incoming journal every file is published with durable hash evidence. */
  lemma CompletedMeansPublished(empty: Digest, j: Journal, i: nat)
    requires JournalOk(empty, j) && j.direction == Incoming && j.state == Completed
    requires i < |j.entries| && j.entries[i].id.kind == File
    ensures j.entries[i].p.Received? && j.entries[i].p.storage == Verified
    ensures j.entries[i].p.durable == j.entries[i].id.size && j.entries[i].p.receiver.Some?
  {
    ValidMeansNoFault(empty, Incoming, j.entries);
    assert ShapeOk(Incoming, i, j.entries[i]) && GeometryOk(empty, j.entries[i]) && Published(j.entries[i]);
  }

  lemma MigratedIsValid(empty: Digest, j: Journal)
    requires JournalOk(empty, j) && j.schema == 1 && j.generation < UINT64_MAX
    ensures JournalOk(empty, Migrated(j)) && Link(empty, j, Migrated(j))
  {
  }

  // ---------------------------------------------------------------- binding both peers' journals

  datatype Manifest = Manifest(item: nat, revision: nat, digest: Digest, entries: seq<Identity>)

  /** Durable evidence about one file that a sender may rely on when it restarts. */
  datatype ResumeFile = ResumeFile(entry: int, size: int, durable: int, prefix: Option<Digest>, completed: bool)

  datatype ResumePlan = ResumePlan(transfer: TransferId, binding: Binding, files: seq<ResumeFile>)

  /** The order and hash evidence a plan checks of each of its files. */
  predicate PlanFileOk(empty: Digest, f: ResumeFile) {
    && 0 <= f.entry < MAX_ENTRIES && Uint(f.size) && Uint(f.durable) && f.durable <= f.size
    && (if f.durable > 0 then f.prefix.Some?
        else if f.completed && f.size == 0 then f.prefix == Some(empty)
        else f.completed || f.prefix.None?)
    && (f.completed ==> f.durable == f.size)
    && (!f.completed && f.size > 0 ==> f.durable != f.size)
  }

  predicate PlanFilesOk(empty: Digest, files: seq<ResumeFile>, previous: int)
    decreases |files|
  {
    files == [] || (previous < files[0].entry && PlanFileOk(empty, files[0]) && PlanFilesOk(empty, files[1..], files[0].entry))
  }

  function Identities(es: seq<Entry>): seq<Identity> {
    seq(|es|, i requires 0 <= i < |es| => es[i].id)
  }

  function Evidence(e: Entry): ResumeFile
    requires e.p.Received?
  {
    ResumeFile(e.id.index, e.id.size, e.p.durable, e.p.prefix, e.p.completed)
  }

  predicate EvidenceOk(empty: Digest, sent: Entry, received: Entry) {
    && sent.p.durable <= received.p.durable && received.p.Received?
    && (received.p.durable > 0 ==> received.p.prefix.Some?)
    && (received.p.completed ==> received.p.durable == received.id.size)
    && (received.id.size == 0 && received.p.completed ==> received.p.prefix == Some(empty))
  }

  /** The evidence of every file from entry `i` on. */
  function Collect(empty: Digest, sent: seq<Entry>, received: seq<Entry>, i: nat): Result<seq<ResumeFile>, Code>
    requires |sent| == |received| && i <= |received|
    decreases |received| - i
  {
    if i == |received| then Ok([])
    else if received[i].id.kind == Directory then Collect(empty, sent, received, i + 1)
    else if !EvidenceOk(empty, sent[i], received[i]) then Err(NonDurableResume)
    else
      var rest := Collect(empty, sent, received, i + 1);
      if rest.Err? then rest else Ok([Evidence(received[i])] + rest.value)
  }

  function ValidateResumePair(empty: Digest, outgoing: Journal, incoming: Journal, m: Manifest): Result<ResumePlan, Code> {
    if JournalFault(empty, outgoing).Some? then Err(JournalFault(empty, outgoing).value)
    else if JournalFault(empty, incoming).Some? then Err(JournalFault(empty, incoming).value)
    else if outgoing.direction != Outgoing || incoming.direction != Incoming then Err(DirectionMismatch)
    else if (outgoing.transfer, outgoing.binding, outgoing.totalSize, outgoing.fileCount, outgoing.directoryCount)
            != (incoming.transfer, incoming.binding, incoming.totalSize, incoming.fileCount, incoming.directoryCount)
         || Identities(outgoing.entries) != Identities(incoming.entries) then Err(ResumeMismatch)
    else if (m.item, m.revision, m.digest, m.entries)
            != (incoming.binding.item, incoming.binding.revision, incoming.binding.manifest, Identities(incoming.entries)) then
      Err(ResumeMismatch)
    else
      assert |outgoing.entries| == |Identities(outgoing.entries)| && |incoming.entries| == |Identities(incoming.entries)|;
      var files := Collect(empty, outgoing.entries, incoming.entries, 0);
      if files.Err? then Err(files.error)
      else if !PlanFilesOk(empty, files.value, -1) then Err(ResumeMismatch)
      else Ok(ResumePlan(incoming.transfer, incoming.binding, files.value))
  }

  /** What a journal pair must agree on before any file is looked at. */
  predicate Paired(empty: Digest, outgoing: Journal, incoming: Journal, m: Manifest) {
    && JournalOk(empty, outgoing) && JournalOk(empty, incoming) && outgoing.direction == Outgoing && incoming.direction == Incoming
    && outgoing.transfer == incoming.transfer && outgoing.binding == incoming.binding
    && outgoing.totalSize == incoming.totalSize && outgoing.fileCount == incoming.fileCount && outgoing.directoryCount == incoming.directoryCount
    && Identities(outgoing.entries) == Identities(incoming.entries) == m.entries
    && (m.item, m.revision, m.digest) == (incoming.binding.item, incoming.binding.revision, incoming.binding.manifest)
  }

  /** The two ways a matching pair is still refused: the sender believes in more durable bytes than
      the receiver has, or the receiver has every byte of a non-empty file but no completion hash. */
  predicate Resumable(sent: Entry, received: Entry)
    requires received.p.Received?
  {
    received.id.kind == File ==>
      sent.p.durable <= received.p.durable && !(!received.p.completed && 0 < received.id.size == received.p.durable)
  }

  function FilesFrom(es: seq<Entry>, i: nat): seq<ResumeFile>
    requires i <= |es| && forall k :: 0 <= k < |es| ==> es[k].p.Received?
    decreases |es| - i
  {
    if i == |es| then [] else (if es[i].id.kind == File then [Evidence(es[i])] else []) + FilesFrom(es, i + 1)
  }

  lemma EvidenceDecides(empty: Digest, sent: Entry, e: Entry, i: nat)
    requires ShapeOk(Incoming, i, e) && GeometryOk(empty, e) && e.id.kind == File
    ensures e.p.Received? && Evidence(e).entry == i
    ensures EvidenceOk(empty, sent, e) && PlanFileOk(empty, Evidence(e)) <==> Resumable(sent, e)
  {
  }

  ghost predicate AllResumable(sent: seq<Entry>, received: seq<Entry>, i: nat)
    requires |sent| == |received| && forall k :: 0 <= k < |received| ==> received[k].p.Received?
  {
    forall k :: i <= k < |received| ==> Resumable(sent[k], received[k])
  }

  lemma {:induction false} CollectExactly(empty: Digest, sent: seq<Entry>, received: seq<Entry>, i: nat, previous: int)
    requires |sent| == |received| && i <= |received| && previous < i
    requires forall k :: 0 <= k < |received| ==> ShapeOk(Incoming, k, received[k]) && GeometryOk(empty, received[k])
    requires forall k :: 0 <= k < |received| ==> received[k].p.Received?
    ensures var r := Collect(empty, sent, received, i);
      && (r.Ok? ==> r.value == FilesFrom(received, i))
      && (r.Ok? && PlanFilesOk(empty, r.value, previous) <==> AllResumable(sent, received, i))
    decreases |received| - i
  {
    hide ShapeOk, GeometryOk, EvidenceOk, PlanFileOk, Resumable;
    if i < |received| {
      var e := received[i];
      if e.id.kind == Directory {
        DirectoryResumable(sent[i], e);
        CollectExactly(empty, sent, received, i + 1, previous);
      } else {
        EvidenceDecides(empty, sent[i], e, i);
        CollectExactly(empty, sent, received, i + 1, i);
        var rest := Collect(empty, sent, received, i + 1);
        if EvidenceOk(empty, sent[i], e) && rest.Ok? {
          assert ([Evidence(e)] + rest.value)[1..] == rest.value;
        }
      }
    }
  }

  lemma DirectoryResumable(sent: Entry, e: Entry)
    requires e.p.Received? && e.id.kind == Directory
    ensures Resumable(sent, e)
  {
  }

  /** A pair of journals yields a plan exactly when it matches the manifest and each other and every
      file is resumable; the plan then holds the receiver's evidence for every file, in order. */
  lemma PairYieldsPlan(empty: Digest, outgoing: Journal, incoming: Journal, m: Manifest)
    ensures Paired(empty, outgoing, incoming, m) ==>
      && |outgoing.entries| == |incoming.entries|
      && (forall k :: 0 <= k < |incoming.entries| ==> incoming.entries[k].p.Received?)
    ensures var r := ValidateResumePair(empty, outgoing, incoming, m);
      && (r.Ok? <==> Paired(empty, outgoing, incoming, m) && AllResumable(outgoing.entries, incoming.entries, 0))
      && (r.Ok? ==> r.value == ResumePlan(incoming.transfer, incoming.binding, FilesFrom(incoming.entries, 0)))
  {
    if Paired(empty, outgoing, incoming, m) {
      assert |Identities(outgoing.entries)| == |Identities(incoming.entries)|;
      ValidMeansNoFault(empty, Incoming, incoming.entries);
      assert forall k :: 0 <= k < |incoming.entries| ==> ShapeOk(Incoming, k, incoming.entries[k]);
      CollectExactly(empty, outgoing.entries, incoming.entries, 0, -1);
    }
  }
}

/** The journal files of one store root. */
module JournalStore {
  import opened Common
  import opened ResumeJournal

  datatype Key = Key(direction: Direction, transfer: TransferId)

  datatype Faults = Faults(backup: WriteResult, migration: WriteResult, commit: WriteResult)

  function KeyOf(j: Journal): Key {
    Key(j.direction, j.transfer)
  }

  function UpToDate(j: Journal): Journal {
    if j.schema == 1 then Migrated(j) else j
  }

  function UpToDateLog(log: seq<Journal>): seq<Journal> {
    if log != [] && log[|log| - 1].schema == 1 then log + [Migrated(log[|log| - 1])] else log
  }

  class ResumeJournalStore {
    const empty: Digest
    var journals: map<Key, Journal>
    var backups: map<Key, Journal>
    ghost var history: map<Key, seq<Journal>>

    /** Every stored journal is valid, sits under its own name, and ends a linked run that began when
        it was created. */
    ghost predicate Valid()
      reads this`journals, this`history
    {
      journals.Keys == history.Keys && forall k {:trigger Stored(k)} :: k in journals ==> Stored(k)
    }

    ghost predicate Stored(k: Key)
      requires k in journals && k in history
      reads this`journals, this`history
    {
      && KeyOf(journals[k]) == k && Linked(empty, history[k])
      && history[k][|history[k]| - 1] == journals[k]
    }

    constructor (empty: Digest)
      ensures Valid() && journals == map[] && backups == map[] && this.empty == empty
    {
      this.empty, journals, backups, history := empty, map[], map[], map[];
    }

    /** Replaces one journal file; a reported failure may still have replaced it. */
    method Replace(j: Journal, outcome: WriteResult) returns (ok: bool)
      requires Valid() && JournalOk(empty, j)
      requires KeyOf(j) in journals ==> Link(empty, journals[KeyOf(j)], j)
      modifies this`journals, this`history
      ensures Valid() && ok == (outcome == Written)
      ensures outcome == FailedBefore ==> journals == old(journals) && history == old(history)
      ensures outcome != FailedBefore ==> journals == old(journals)[KeyOf(j) := j]
      ensures outcome != FailedBefore && KeyOf(j) !in old(history) ==> history == old(history)[KeyOf(j) := [j]]
      ensures outcome != FailedBefore && KeyOf(j) in old(history) ==>
        history == old(history)[KeyOf(j) := old(history)[KeyOf(j)] + [j]]
    {
      ok := outcome == Written;
      var k := KeyOf(j);
      if outcome != FailedBefore {
        assert k in journals ==> Stored(k);
        ghost var log := if k in history then history[k] else [];
        LogGrows(empty, log, j);
        assert log == [] ==> log + [j] == [j];
        label before:
        journals := journals[k := j];
        history := history[k := log + [j]];
        forall q | q in journals ensures Stored(q) {
          assert q != k ==> old@before(Stored(q));
        }
      }
    }

    method Create(j: Journal, outcome: WriteResult) returns (r: Result<Journal, Code>)
      requires Valid()
      modifies this`journals, this`history
      ensures Valid()
      ensures KeyOf(j) in old(journals) || !JournalOk(empty, j) ==> r.Err? && journals == old(journals) && history == old(history)
      ensures JournalOk(empty, j) && KeyOf(j) in old(journals) ==> r == Err(AlreadyExists)
      ensures r.Ok? ==> r.value == j && journals == old(journals)[KeyOf(j) := j] && history == old(history)[KeyOf(j) := [j]]
      ensures JournalOk(empty, j) && KeyOf(j) !in old(journals) ==> r == if outcome == Written then Ok(j) else Err(StoreIo)
    {
      var fault := ValidateJournal(empty, j);
      if fault.Some? {
        return Err(fault.value);
      }
      if KeyOf(j) in journals {
        return Err(AlreadyExists);
      }
      var ok := Replace(j, outcome);
      return if ok then Ok(j) else Err(StoreIo);
    }

    /** How a schema-1 journal is migrated: one generation later it is of schema 2, and finalizing when it was an
        incoming completed one. A copy of it is kept first, and one that is there already must be its copy. */
    ghost predicate Migrates(j: Journal, old': map<Key, Journal>, k: Key, backup: WriteResult, migration: WriteResult,
                             r: Result<Journal, Code>, kept: map<Key, Journal>)
    {
      && kept == (if j.generation == 0xFFFF_FFFF_FFFF_FFFF || k in old' || backup == FailedBefore then old' else old'[k := j])
      && if j.generation == 0xFFFF_FFFF_FFFF_FFFF then r == Err(GenerationOverflow)
         else if k in old' && old'[k] != j then r == Err(MigrationConflict)
         else if (k !in old' && backup != Written) || migration != Written then r == Err(StoreIo)
         else r == Ok(j.(schema := 2, generation := j.generation + 1,
                         state := if j.direction == Incoming && j.state == Completed then Finalizing else j.state))
    }

    /** Reads a journal, first bringing an old one up to the current schema and keeping a copy of it. */
    method Load(k: Key, backup: WriteResult, migration: WriteResult) returns (r: Result<Journal, Code>)
      requires Valid()
      modifies this
      ensures Valid()
      ensures r == Err(NotFound) <==> k !in old(journals)
      ensures k !in old(journals) ==> journals == old(journals) && history == old(history)
      ensures r.Ok? ==>
        && r.value == UpToDate(old(journals[k])) && r.value.schema == 2
        && journals == old(journals)[k := r.value] && history == old(history)[k := UpToDateLog(old(history[k]))]
      ensures r.Err? && k in old(journals) ==>
        && old(journals[k]).schema == 1 && r.error in {GenerationOverflow, MigrationConflict, StoreIo}
        && ((journals == old(journals) && history == old(history))
            || (journals == old(journals)[k := UpToDate(old(journals[k]))] && history == old(history)[k := UpToDateLog(old(history[k]))]))
      ensures k in old(journals) && old(journals[k]).schema == 2 ==> r.Ok? && unchanged(this)
      ensures k in old(journals) && old(journals[k]).schema == 1 ==> Migrates(old(journals[k]), old(backups), k, backup, migration, r, backups)
    {
      if k !in journals {
        return Err(NotFound);
      }
      assert Stored(k);
      var j := journals[k];
      assert JournalOk(empty, j);
      if j.schema != 1 {
        assert journals == journals[k := j] && history == history[k := history[k]];
        return Ok(j);
      }
      if j.generation == UINT64_MAX {
        return Err(GenerationOverflow);
      }
      MigratedIsValid(empty, j);
      if k in backups {
        if backups[k] != j {
          return Err(MigrationConflict);
        }
      } else {
        if backup != FailedBefore {
          backups := backups[k := j];
        }
        if backup != Written {
          return Err(StoreIo);
        }
      }
      var ok := Replace(Migrated(j), migration);
      return if ok then Ok(Migrated(j)) else Err(StoreIo);
    }

    /** The compare-and-swap: the journal is replaced only when the stored generation is the expected
        one and the whole transition from it is allowed. */
    method Commit(j: Journal, expected: int, faults: Faults) returns (r: Result<Journal, Code>)
      requires Valid()
      modifies this
      ensures Valid()
      ensures r.Ok? ==>
        && r.value == j && JournalOk(empty, j) && KeyOf(j) in old(journals)
        && var current := UpToDate(old(journals[KeyOf(j)]));
        && current.generation == expected && Follows(current, j)
        && journals == old(journals)[KeyOf(j) := j]
        && history == old(history)[KeyOf(j) := UpToDateLog(old(history[KeyOf(j)])) + [j]]
      ensures (faults == Faults(Written, Written, Written) && JournalOk(empty, j) && Uint(expected)
               && KeyOf(j) in old(journals) && old(journals[KeyOf(j)]).schema == 2) ==>
        var current := old(journals[KeyOf(j)]);
        && (r.Ok? <==> current.generation == expected && Follows(current, j))
        && (current.generation != expected ==> r == Err(GenerationConflict))
        && (r.Err? ==> journals == old(journals) && history == old(history))
      ensures JournalOk(empty, j) && !(0 <= expected <= 0xFFFF_FFFF_FFFF_FFFF) ==> r == Err(InvalidJournal) && unchanged(this)
      ensures (JournalOk(empty, j) && j.state == Finalizing && KeyOf(j) in old(journals)
               && old(journals[KeyOf(j)]).schema == 2 && old(journals[KeyOf(j)]).state == Failed) ==>
        r.Err? && journals == old(journals) && history == old(history)
      ensures forall k :: k in old(journals) && k != KeyOf(j) ==> k in journals && journals[k] == old(journals[k])
    {
      hide Follows, TransitionFault, JournalFault, Migrated, ProperJournal, MayTurn, Migrates;
      var fault := ValidateJournal(empty, j);
      if fault.Some? {
        return Err(fault.value);
      }
      if !Uint(expected) {
        return Err(InvalidJournal);
      }
      if j.state == Finalizing && KeyOf(j) in journals && journals[KeyOf(j)].state == Failed {
        FailedIsNotFinalized(journals[KeyOf(j)], j);
      }
      var k := KeyOf(j);
      ghost var was, logs := journals, history;
      var current := Load(k, faults.backup, faults.migration);
      if current.Err? {
        return current;
      }
      if current.value.generation != expected {
        return Err(GenerationConflict);
      }
      r := Supersede(j, faults.commit);
      Overwritten(was, k, current.value, j);
      Overwritten(logs, k, UpToDateLog(logs[k]), UpToDateLog(logs[k]) + [j]);
    }

    /** The journal takes the place of the stored one if it may follow it. */
    method Supersede(j: Journal, outcome: WriteResult) returns (r: Result<Journal, Code>)
      requires Valid() && JournalOk(empty, j) && KeyOf(j) in journals && journals[KeyOf(j)].schema == 2
      modifies this`journals, this`history
      ensures Valid()
      ensures r.Ok? ==>
        && r.value == j && Follows(old(journals[KeyOf(j)]), j) && KeyOf(j) in old(history)
        && journals == old(journals)[KeyOf(j) := j] && history == old(history)[KeyOf(j) := old(history[KeyOf(j)]) + [j]]
      ensures !Follows(old(journals[KeyOf(j)]), j) ==> r.Err? && journals == old(journals) && history == old(history)
      ensures r.Err? && outcome == Written ==> journals == old(journals) && history == old(history)
      ensures outcome == Written ==> (r.Ok? <==> Follows(old(journals[KeyOf(j)]), j))
      ensures forall k :: k in old(journals) && k != KeyOf(j) ==> k in journals && journals[k] == old(journals[k])
    {
      hide Follows, TransitionFault, JournalFault, MayTurn;
      var fault := ValidateTransition(journals[KeyOf(j)], j);
      if fault.Some? {
        return Err(fault.value);
      }
      assert Stored(KeyOf(j));
      var ok := Replace(j, outcome);
      return if ok then Ok(j) else Err(StoreIo);
    }

    method Purge(k: Key) returns (removed: bool)
      requires Valid()
      modifies this`journals, this`history
      ensures Valid() && removed == (k in old(journals))
      ensures journals == old(journals) - {k} && history == old(history) - {k}
    {
      removed := k in journals;
      label before:
      journals := journals - {k};
      history := history - {k};
      forall q | q in journals ensures Stored(q) {
        assert old@before(Stored(q));
      }
    }
  }

  lemma Overwritten<K, V>(m: map<K, V>, k: K, a: V, b: V)
    ensures m[k := a][k := b] == m[k := b]
  {
  }

  lemma LogGrows(empty: Digest, log: seq<Journal>, j: Journal)
    requires JournalOk(empty, j) && (log != [] ==> Linked(empty, log) && Link(empty, log[|log| - 1], j))
    ensures Linked(empty, log + [j])
  {
    var log' := log + [j];
    forall i | 0 <= i < |log'| - 1 ensures LinkAt(empty, log', i) {
      if i < |log| - 1 {
        assert LinkAt(empty, log, i);
      }
    }
  }
}
