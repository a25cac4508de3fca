/** Publishing, committing, discarding and collecting under the root lock shared by all profiles.
    Every change is one atomic file system step; a process may die after any of them, and between any
    two of them other threads may do what needs no lock. */
module ObjectStore {
  import opened Common
  import opened Staging
  import opened ObjectFiles
  import J = ResumeJournal

  datatype StoreError = InvalidObject | InvalidStage | StageChanged | PublicationConflict | UnsafeStore | StoreIo | InvalidValue

  /** What a receiving stage hands over about one of its verified files. */
  datatype StagedFile = StagedFile(entry: int, size: int, sha: Digest, fingerprint: Inode)

  function FileEntries(m: J.Manifest): set<int> {
    set k | 0 <= k < |m.entries| && m.entries[k].kind == J.File
  }

  predicate Covers(m: J.Manifest, staged: seq<StagedFile>) {
    |staged| == |FileEntries(m)| && (set f | f in staged :: f.entry) == FileEntries(m)
  }

  /** The evidence fits the manifest. */
  predicate FitsEntry(m: J.Manifest, f: StagedFile) {
    && 0 <= f.entry < |m.entries| && f.size == m.entries[f.entry].size && m.entries[f.entry].expected == Some(f.sha)
  }

  /** The staged file is still the one the evidence is about. */
  predicate StillStaged(s: Files, t: TransferId, f: StagedFile) {
    && f.entry >= 0 && Slot(t, f.entry) in s.stages && s.stages[Slot(t, f.entry)] == f.fingerprint
    && f.fingerprint in s.blobs && s.blobs[f.fingerprint].Data? && |s.blobs[f.fingerprint].bytes| == f.size
  }

  /** What the evidence says of one staged file is true: it is an entry of the manifest with that size and
      hash, and the very file that was verified still lies in the stage, with all its bytes. */
  ghost predicate TrueEvidence(s: Files, pub: Publication, f: StagedFile) {
    && 0 <= f.entry < |pub.manifest.entries| && f.size == pub.manifest.entries[f.entry].size
    && pub.manifest.entries[f.entry].expected == Some(f.sha)
    && Slot(pub.transfer, f.entry) in s.stages && s.stages[Slot(pub.transfer, f.entry)] == f.fingerprint
    && f.fingerprint in s.blobs && s.blobs[f.fingerprint].Data? && |s.blobs[f.fingerprint].bytes| == f.size
  }

  /** Every file of the manifest is staged, exactly once, and nothing else is. */
  ghost predicate OneEach(m: J.Manifest, staged: seq<StagedFile>) {
    && (forall k: nat :: k < |m.entries| && m.entries[k].kind == J.File ==> exists i :: 0 <= i < |staged| && staged[i].entry == k)
    && (forall i :: 0 <= i < |staged| ==> 0 <= staged[i].entry < |m.entries| && m.entries[staged[i].entry].kind == J.File)
    && (forall i, j :: 0 <= i < j < |staged| ==> staged[i].entry != staged[j].entry)
  }

  ghost function EntriesOf(staged: seq<StagedFile>): set<int> {
    set f | f in staged :: f.entry
  }

  lemma OneMoreStaged(staged: seq<StagedFile>)
    requires staged != []
    ensures var n := |staged| - 1; EntriesOf(staged) == EntriesOf(staged[..n]) + {staged[n].entry}
  {
    var n := |staged| - 1;
    forall f | f in staged ensures f in staged[..n] || f == staged[n] {
      var k :| 0 <= k < |staged| && staged[k] == f;
      assert k < n ==> staged[..n][k] == f;
    }
  }

  lemma StagedAt(staged: seq<StagedFile>, i: nat)
    requires i < |staged|
    ensures staged[i].entry in EntriesOf(staged)
  {
    assert staged[i] in staged;
  }

  lemma {:induction false} Repeated(staged: seq<StagedFile>)
    ensures |EntriesOf(staged)| <= |staged|
    ensures |EntriesOf(staged)| == |staged| ==> forall i, j :: 0 <= i < j < |staged| ==> staged[i].entry != staged[j].entry
  {
    if staged != [] {
      hide EntriesOf;
      var n := |staged| - 1;
      Repeated(staged[..n]);
      OneMoreStaged(staged);
      if |EntriesOf(staged)| == |staged| {
        forall i, j | 0 <= i < j < |staged| ensures staged[i].entry != staged[j].entry {
          if j < n {
            assert staged[..n][i].entry != staged[..n][j].entry;
          } else {
            StagedAt(staged[..n], i);
          }
        }
      }
    }
  }

  lemma CoversExactly(m: J.Manifest, staged: seq<StagedFile>)
    requires Covers(m, staged)
    ensures OneEach(m, staged)
  {
    Repeated(staged);
    assert EntriesOf(staged) == FileEntries(m);
    forall i | 0 <= i < |staged| ensures 0 <= staged[i].entry < |m.entries| && m.entries[staged[i].entry].kind == J.File {
      assert staged[i] in staged && staged[i].entry in EntriesOf(staged);
    }
    forall k: nat | k < |m.entries| && m.entries[k].kind == J.File ensures exists i :: 0 <= i < |staged| && staged[i].entry == k {
      assert k in EntriesOf(staged);
    }
  }

  /** Nothing else was ever published under this transfer. */
  predicate ReceiptFree(s: Files, pub: Publication) {
    pub.transfer in s.pending && s.pending[pub.transfer].receipt.Some? ==> s.pending[pub.transfer].receipt.value == ReceiptOf(pub)
  }

  lemma MeanwhileTrans(s: Files, u: Files, v: Files, owner: Option<TransferId>)
    ensures Meanwhile(s, s, owner)
    ensures Meanwhile(s, u, owner) && Meanwhile(u, v, owner) ==> Meanwhile(s, v, owner) && v.pending == u.pending == s.pending && v.indexes == u.indexes == s.indexes
  {
  }

  /** A temporary file of an interrupted installation lies beside the links of a transfer. */
  predicate Littered(s: Files, t: TransferId) {
    t in s.pending && s.pending[t].litter > 0
  }

  predicate LeftOf(s: Files, t: TransferId, p: Pending) {
    t in s.pending && s.pending[t] == p
  }

  /** Only pins are added. */
  predicate MorePins(p: Pending, q: Pending) {
    && q.receipt == p.receipt && q.manifest == p.manifest && q.litter == p.litter
    && forall d :: d in p.pins ==> d in q.pins && q.pins[d] == p.pins[d]
  }

  lemma NewlyPinned(sha: Content -> Digest, named: Digest -> J.Manifest, s: Files, u: Files, q: Pending, pub: Publication, d: Digest)
    requires Inv(sha, named, s) && Attached(s, u, q, pub) && d in s.objects && d in q.pins && q.pins[d] == s.objects[d]
    requires s.objects[d] in s.blobs && s.blobs[s.objects[d]].Data?
    ensures PinnedObject(sha, u, pub.transfer, d, |s.blobs[s.objects[d]].bytes|) && pub.transfer in u.pending && u.pending[pub.transfer] == q
  {
  }

  lemma PinnedStays(sha: Content -> Digest, s: Files, u: Files, pub: Publication, d: Digest, size: int)
    requires Advances(s, u, pub) && PinnedObject(sha, s, pub.transfer, d, size)
    requires pub.transfer in u.pending && MorePins(s.pending[pub.transfer], u.pending[pub.transfer])
    ensures PinnedObject(sha, u, pub.transfer, d, size)
  {
  }

  lemma StagedStays(s: Files, u: Files, f: StagedFile, pub: Publication)
    requires Advances(s, u, pub) && StillStaged(s, pub.transfer, f)
    ensures StillStaged(u, pub.transfer, f) && u.blobs[f.fingerprint] == s.blobs[f.fingerprint]
  {
  }

  /** An object already there under a name has the very bytes of any file with that hash. */
  lemma SameBytes(sha: Content -> Digest, named: Digest -> J.Manifest, s: Files, d: Digest, i: Inode)
    requires NoCollisions(sha) && Inv(sha, named, s) && d in s.objects
    requires i in s.blobs && s.blobs[i].Data? && sha(s.blobs[i].bytes) == d
    ensures s.objects[d] in s.blobs && s.blobs[s.objects[d]] == s.blobs[i]
  {
  }

  lemma MeanwhileLinked(s: Files, u: Files, v: Files, d: Digest, i: Inode, pub: Publication)
    requires u == LinkedObject(s, d, i) && Meanwhile(u, v, Some(pub.transfer)) && i in s.blobs
    ensures v.pending == s.pending && d in v.objects && v.objects[d] == i && i in v.blobs && v.blobs[i] == s.blobs[i]
  {
  }

  lemma MeanwhileSame(s: Files, u: Files, owner: Option<TransferId>)
    requires Meanwhile(s, u, owner)
    ensures u.pending == s.pending && u.indexes == s.indexes && u.objects == s.objects && u.manifests == s.manifests && u.temps == s.temps
    ensures forall i :: i in s.blobs ==> i in u.blobs && u.blobs[i] == s.blobs[i]
  {
  }

  lemma TextMeanwhile(s: Files, u: Files, pub: Publication)
    requires Meanwhile(TextWritten(s, pub.manifest), u, Some(pub.transfer))
    ensures u.pending == s.pending && u.manifests == s.manifests && s.next in u.blobs && u.blobs[s.next] == Text(pub.manifest)
  {
  }

  lemma ManifestMeanwhile(s: Files, u: Files, i: Inode, pub: Publication)
    requires i in s.blobs && Meanwhile(LinkedManifest(s, pub.manifest.digest, i), u, Some(pub.transfer))
    ensures u.pending == s.pending && u.manifests == s.manifests[pub.manifest.digest := i] && i in u.blobs && u.blobs[i] == s.blobs[i]
  {
  }

  lemma TempMeanwhile(s: Files, u: Files, i: Inode, pub: Publication)
    requires Meanwhile(s.(temps := s.temps - {i}), u, Some(pub.transfer))
    ensures u.pending == s.pending && u.manifests == s.manifests && forall k :: k in s.blobs ==> k in u.blobs && u.blobs[k] == s.blobs[k]
  {
  }

  lemma ManifestPinHolds(sha: Content -> Digest, named: Digest -> J.Manifest, s: Files, m: J.Manifest, p: Pending)
    requires Inv(sha, named, s) && m.digest in s.manifests && PinsHold(s, p) && named(m.digest) == m
    ensures PinsHold(s, p.(manifest := Some(s.manifests[m.digest])))
    ensures s.manifests[m.digest] in s.blobs && s.blobs[s.manifests[m.digest]] == Text(m)
  {
  }

  lemma Unhooked(s: Files, p: Pending)
    requires PinsHold(s, p)
    ensures PinsHold(s, p.(manifest := None))
  {
  }

  lemma ReceiptChangeHolds(sha: Content -> Digest, named: Digest -> J.Manifest, s: Files, start: Files, q: Pending, p: Pending, pub: Publication)
    requires Inv(sha, named, s) && Attached(start, s, q, pub) && p.pins == q.pins && p.manifest == q.manifest
    requires p.receipt == q.receipt || p.receipt == Some(ReceiptOf(pub))
    ensures PinsHold(s, p) && (Begun(s, pub) ==> Begun(WithPending(s, pub.transfer, p), pub))
  {
    hide Linked, Truthful, Deliverable;
    assert PinsHold(s, s.pending[pub.transfer]);
    BegunWith(s, p, pub);
  }

  lemma StillLittered(ps: seq<Files>, qs: seq<Files>, rs: seq<Files>, t: TransferId)
    requires ps <= qs <= rs && exists i :: |ps| <= i < |qs| && Littered(qs[i], t)
    ensures exists i :: |ps| <= i < |rs| && Littered(rs[i], t)
  {
    var i :| |ps| <= i < |qs| && Littered(qs[i], t);
    assert Littered(rs[i], t);
  }

  lemma AlongNothing(ps: seq<Files>, s: Files, pub: Publication)
    ensures Along(ps, |ps|, s, pub)
  {
  }

  /** Once every staged file is pinned and the manifest too, the transfer is protected. */
  lemma PublishedProtects(sha: Content -> Digest, s: Files, u: Files, staged: seq<StagedFile>, pub: Publication)
    requires Covers(pub.manifest, staged) && forall f :: f in staged ==> FitsEntry(pub.manifest, f)
    requires pub.transfer in s.pending && forall f :: f in staged ==> PinnedObject(sha, s, pub.transfer, f.sha, f.size)
    requires s.pending[pub.transfer].receipt == Some(ReceiptOf(pub)) && Advances(s, u, pub)
    requires pub.transfer in u.pending && u.pending[pub.transfer] == s.pending[pub.transfer].(manifest := u.pending[pub.transfer].manifest)
    requires var p := u.pending[pub.transfer]; p.manifest.Some? && p.manifest.value in u.blobs && u.blobs[p.manifest.value] == Text(pub.manifest)
    ensures Protected(u, pub)
  {
    var m, p := pub.manifest, u.pending[pub.transfer];
    forall k | 0 <= k < |m.entries| && m.entries[k].kind == J.File ensures PinSized(u, p, m.entries[k]) {
      assert k in FileEntries(m);
      assert k in (set f | f in staged :: f.entry);
      var f :| f in staged && f.entry == k;
      assert FitsEntry(m, f);
      assert PinnedObject(sha, s, pub.transfer, f.sha, f.size);
    }
  }

  /** The hashes the stage computed for its files are right. */
  ghost predicate Evidence(sha: Content -> Digest, s: Files, staged: seq<StagedFile>) {
    forall f :: f in staged && f.fingerprint in s.blobs && s.blobs[f.fingerprint].Data? ==> sha(s.blobs[f.fingerprint].bytes) == f.sha
  }

  lemma EvidenceStays(sha: Content -> Digest, s: Files, u: Files, staged: seq<StagedFile>, pub: Publication)
    requires Advances(s, u, pub) && Evidence(sha, s, staged)
    requires forall f :: f in staged ==> FitsEntry(pub.manifest, f) && StillStaged(s, pub.transfer, f)
    ensures Evidence(sha, u, staged)
    ensures forall f :: f in staged ==> StillStaged(u, pub.transfer, f) && f.sha in Hashes(pub.manifest)
  {
    forall f | f in staged ensures f.sha in Hashes(pub.manifest) {
      assert pub.manifest.entries[f.entry].expected == Some(f.sha);
    }
  }

  lemma AttachedIs(s: Files, u: Files, p: Pending, pub: Publication)
    requires Attached(s, u, p, pub)
    ensures pub.transfer in u.pending && u.pending[pub.transfer] == p
  {
  }

  /** The transfer's links can be released: nothing foreign lies beside them. */
  predicate Releasable(p: Pending, pub: Publication) {
    p.litter == 0 && p.pins.Keys <= Hashes(pub.manifest)
  }

  /** What one file system operation can do to a directory of links: no link is made where one is, a temporary
      file comes or goes, and the receipt is put in place or removed. */
  ghost predicate OneLink(a: Pending, b: Pending) {
    || b == a.(receipt := b.receipt)
    || (b == a.(manifest := b.manifest) && (a.manifest.None? || b.manifest.None?))
    || b == a.(litter := a.litter + 1) || (a.litter > 0 && b == a.(litter := a.litter - 1))
    || exists d :: OnePin(a, b, d)
  }

  ghost predicate OnePin(a: Pending, b: Pending, d: Digest) {
    b == a.(pins := a.pins - {d}) || (d !in a.pins && d in b.pins && b == a.(pins := a.pins[d := b.pins[d]]))
  }

  ghost predicate OneStep(s: Files, t: TransferId, p: Pending) {
    if t in s.pending then OneLink(s.pending[t], p) else p == Pending(None, None, map[], 0)
  }

  lemma ChildIsOneLink(p: Pending, c: Child)
    ensures OneLink(p, Without(p, c)) && Without(p, c).litter == p.litter
  {
    if c.PinFile? {
      assert OnePin(p, Without(p, c), c.digest);
    }
  }

  lemma PinIsOneLink(p: Pending, d: Digest, i: Inode)
    requires d !in p.pins
    ensures OneLink(p, p.(pins := p.pins[d := i]))
  {
    assert OnePin(p, p.(pins := p.pins[d := i]), d);
  }

  /** Every link beside the receipt and the manifest is of a file of the manifest, and nothing else is there. */
  ghost predicate OwnLinks(p: Pending, pub: Publication) {
    && p.litter == 0
    && forall d :: d in p.pins ==> exists k :: 0 <= k < |pub.manifest.entries| && pub.manifest.entries[k].expected == Some(d)
  }

  lemma ReleasableMeans(p: Pending, pub: Publication)
    ensures Releasable(p, pub) ==> OwnLinks(p, pub)
  {
    if Releasable(p, pub) {
      forall d | d in p.pins
        ensures exists k :: 0 <= k < |pub.manifest.entries| && pub.manifest.entries[k].expected == Some(d)
      {
        assert d in p.pins.Keys && d in Hashes(pub.manifest);
      }
    }
  }

  /** A directory with no children and no litter is empty, and only then can it be removed. */
  lemma EmptyDirectory(p: Pending)
    ensures Children(p) == {} && p.litter == 0 <==> p == Pending(None, None, map[], 0)
  {
    if Children(p) == {} && p.litter == 0 {
      assert p.receipt.Some? ==> ReceiptFile in Children(p);
      assert p.manifest.Some? ==> ManifestFile in Children(p);
      assert forall d :: d in p.pins ==> PinFile(d) in Children(p);
      assert p.pins == map[];
    }
  }

  lemma FewerChildren(sha: Content -> Digest, named: Digest -> J.Manifest, s: Files, c: Child, pub: Publication)
    requires Inv(sha, named, s) && pub.transfer in s.pending && c in Children(s.pending[pub.transfer])
    ensures var q := Without(s.pending[pub.transfer], c);
            && PinsHold(s, q) && Children(q) == Children(s.pending[pub.transfer]) - {c}
            && (Begun(s, pub) ==> Begun(WithPending(s, pub.transfer, q), pub))
  {
    hide Linked, Truthful, Deliverable;
    assert PinsHold(s, s.pending[pub.transfer]);
    WithoutChild(s, s.pending[pub.transfer], c);
  }

  lemma DroppedAdvances(sha: Content -> Digest, named: Digest -> J.Manifest, s: Files, pub: Publication)
    requires Inv(sha, named, s)
    ensures Inv(sha, named, s.(pending := s.pending - {pub.transfer})) && Advances(s, s.(pending := s.pending - {pub.transfer}), pub)
  {
    hide Inv;
    DroppedPendingKeeps(sha, named, s, pub.transfer);
  }

  lemma DroppedMeanwhile(s: Files, u: Files, t: TransferId)
    requires Meanwhile(s.(pending := s.pending - {t}), u, Some(t))
    ensures t !in u.pending
  {
  }

  /** A directory of links that may be discarded under this binding: it is empty, or its receipt says so
      and nothing foreign lies in it. */
  predicate Discardable(p: Pending, t: TransferId, provisional: Digest) {
    p.litter == 0 && (Children(p) == {} || (p.receipt.Some? && p.receipt.value.transfer == t && p.receipt.value.provisional == provisional))
  }

  /** Whenever the directory is there it may be discarded. */
  predicate Retryable(s: Files, t: TransferId, provisional: Digest) {
    t in s.pending ==> Discardable(s.pending[t], t, provisional)
  }

  lemma WorksForTrans(s: Files, u: Files, v: Files, t: TransferId)
    ensures WorksFor(s, s, t)
    ensures WorksFor(s, u, t) && WorksFor(u, v, t) ==> WorksFor(s, v, t)
  {
  }

  lemma WorksForMeanwhile(s: Files, u: Files, v: Files, t: TransferId)
    requires WorksFor(s, u, t) && Meanwhile(u, v, Some(t))
    ensures WorksFor(s, v, t) && v.pending == u.pending
  {
  }

  lemma UnhookWorks(sha: Content -> Digest, named: Digest -> J.Manifest, s: Files, t: TransferId, c: Child)
    requires Inv(sha, named, s) && t in s.pending && c in Children(s.pending[t])
    ensures var u := WithPending(s, t, Without(s.pending[t], c)); Inv(sha, named, u) && WorksFor(s, u, t)
  {
    hide Linked, Truthful, Deliverable;
    assert PinsHold(s, s.pending[t]);
    WithoutChild(s, s.pending[t], c);
    WithPendingKeeps(sha, named, s, t, Without(s.pending[t], c));
  }

  lemma RemovalWorks(sha: Content -> Digest, named: Digest -> J.Manifest, s: Files, t: TransferId)
    requires Inv(sha, named, s)
    ensures var u := s.(pending := s.pending - {t}); Inv(sha, named, u) && WorksFor(s, u, t)
  {
    hide Inv;
    DroppedPendingKeeps(sha, named, s, t);
  }

  /** Removing a link other than the receipt brings the end nearer and keeps the request repeatable. */
  lemma FewerToGo(p: Pending, c: Child)
    requires c in Children(p) && c != ReceiptFile
    ensures Without(p, c).receipt == p.receipt && Without(p, c).litter == p.litter
    ensures Children(Without(p, c)) - {ReceiptFile} == Children(p) - {ReceiptFile} - {c}
    ensures |Children(Without(p, c)) - {ReceiptFile}| < |Children(p) - {ReceiptFile}|
  {
    WithoutChild(Files(0, map[], map[], map[], {}, map[], map[], map[], map[]), p, c);
    ChildLess(Children(p), Children(Without(p, c)), c);
  }

  lemma ChildLess(a: set<Child>, b: set<Child>, c: Child)
    requires b == a - {c} && c in a && c != ReceiptFile
    ensures b - {ReceiptFile} == a - {ReceiptFile} - {c} && |b - {ReceiptFile}| < |a - {ReceiptFile}|
  {
    assert b - {ReceiptFile} == a - {ReceiptFile} - {c};
  }

  lemma ReceiptAlone(p: Pending)
    ensures ReceiptFile in Children(p) <==> p.receipt.Some?
    ensures p.receipt.Some? && Children(p) - {ReceiptFile} == {} ==> Children(Without(p, ReceiptFile)) == {}
    ensures Without(p, ReceiptFile).litter == p.litter
  {
    if p.receipt.Some? {
      assert Children(Without(p, ReceiptFile)) == Children(p) - {ReceiptFile};
    }
  }

  /** A collector's progress: these names went, and what other threads may do happened. */
  ghost predicate Collected(s: Files, u: Files, objects: set<Digest>, manifests: set<Digest>, temps: set<Inode>) {
    && u.objects == s.objects - objects && u.manifests == s.manifests - manifests && u.temps == s.temps - temps
    && u.pending == s.pending && u.indexes == s.indexes && s.next <= u.next
    && forall i :: i in s.blobs ==> i in u.blobs && u.blobs[i] == s.blobs[i]
  }

  lemma CollectedOn(s: Files, u: Files, v: Files, objects: set<Digest>, manifests: set<Digest>, temps: set<Inode>)
    requires Collected(s, u, objects, manifests, temps) && Meanwhile(u, v, None)
    ensures Collected(s, v, objects, manifests, temps)
  {
  }

  lemma CollectedNothing(s: Files, u: Files)
    requires Meanwhile(s, u, None)
    ensures Collected(s, u, {}, {}, {})
  {
    assert s.objects - {} == s.objects && s.manifests - {} == s.manifests && s.temps - {} == s.temps;
  }

  /** Nobody needs the object or has pinned it. */
  ghost predicate ObjectDead(s: Files, d: Digest) {
    !ObjectNeeded(s, d) && !ObjectPinned(s, d)
  }

  ghost predicate ManifestDead(s: Files, d: Digest) {
    d in s.manifests && !ManifestNeeded(s, d) && !ManifestPinned(s, d)
  }

  lemma ObjectGoes(sha: Content -> Digest, named: Digest -> J.Manifest, s: Files, u: Files, objects: set<Digest>, manifests: set<Digest>, temps: set<Inode>, d: Digest)
    requires Inv(sha, named, u) && Collected(s, u, objects, manifests, temps) && d in u.objects && ObjectDead(s, d)
    ensures Inv(sha, named, WithoutObject(u, d)) && Collected(s, WithoutObject(u, d), objects + {d}, manifests, temps)
  {
    hide Inv;
    UnlinkObject(sha, named, u, d);
    assert WithoutObject(u, d).objects == s.objects - (objects + {d});
  }

  lemma ManifestGoes(sha: Content -> Digest, named: Digest -> J.Manifest, s: Files, u: Files, objects: set<Digest>, manifests: set<Digest>, temps: set<Inode>, d: Digest)
    requires Inv(sha, named, u) && Collected(s, u, objects, manifests, temps) && d in u.manifests && ManifestDead(s, d)
    ensures Inv(sha, named, WithoutManifest(u, d)) && Collected(s, WithoutManifest(u, d), objects, manifests + {d}, temps)
  {
    hide Inv;
    assert u.manifests[d] == s.manifests[d];
    assert !ManifestPinned(u, d);
    UnlinkManifest(sha, named, u, d);
    assert WithoutManifest(u, d).manifests == s.manifests - (manifests + {d});
  }

  lemma TempGoes(sha: Content -> Digest, named: Digest -> J.Manifest, s: Files, u: Files, objects: set<Digest>, manifests: set<Digest>, temps: set<Inode>, i: Inode)
    requires Inv(sha, named, u) && Collected(s, u, objects, manifests, temps)
    ensures var v := u.(temps := u.temps - {i}); Inv(sha, named, v) && Collected(s, v, objects, manifests, temps + {i})
  {
    GrowsKeepsInv(sha, named, u, u.(temps := u.temps - {i}));
  }

  ghost predicate NeedsObject(s: Files, profiles: set<nat>, d: Digest) {
    exists p, k :: p in s.indexes && p in profiles && 0 <= k < |s.indexes[p].rows| && Live(s.indexes[p].rows[k]) && d in Hashes(s.indexes[p].rows[k].manifest)
  }

  ghost predicate NeedsManifest(s: Files, profiles: set<nat>, d: Digest) {
    exists p, k :: p in s.indexes && p in profiles && 0 <= k < |s.indexes[p].rows| && Live(s.indexes[p].rows[k]) && s.indexes[p].rows[k].manifest.digest == d
  }

  lemma OneMoreProfile(s: Files, profiles: set<nat>, p: nat)
    requires p in s.indexes
    ensures forall d :: NeedsObject(s, profiles + {p}, d) <==>
      NeedsObject(s, profiles, d) || exists k :: 0 <= k < |s.indexes[p].rows| && Live(s.indexes[p].rows[k]) && d in Hashes(s.indexes[p].rows[k].manifest)
    ensures forall d :: NeedsManifest(s, profiles + {p}, d) <==>
      NeedsManifest(s, profiles, d) || exists k :: 0 <= k < |s.indexes[p].rows| && Live(s.indexes[p].rows[k]) && s.indexes[p].rows[k].manifest.digest == d
  {
  }

  lemma CollectedNames(s: Files, u: Files)
    requires Collected(s, u, {}, {}, {})
    ensures u.objects.Keys == s.objects.Keys && u.manifests.Keys == s.manifests.Keys && u.temps == s.temps
  {
  }

  lemma CollectedHas(s: Files, u: Files, objects: set<Digest>, manifests: set<Digest>, temps: set<Inode>)
    requires Collected(s, u, objects, manifests, temps)
    ensures u.objects.Keys == s.objects.Keys - objects && u.manifests.Keys == s.manifests.Keys - manifests
  {
  }

  lemma CollectedEnd(s: Files, u: Files, objects: set<Digest>, manifests: set<Digest>, temps: set<Inode>)
    requires Collected(s, u, objects, manifests, temps) && temps == s.temps
    ensures u.pending == s.pending && u.indexes == s.indexes && u.temps == {}
    ensures u.objects.Keys == s.objects.Keys - objects && forall d :: d in u.objects ==> u.objects[d] == s.objects[d]
    ensures u.manifests.Keys == s.manifests.Keys - manifests && forall d :: d in u.manifests ==> u.manifests[d] == s.manifests[d]
  {
  }

  /** Taking away part of a set takes away as many elements. */
  lemma {:induction false} Fewer<T>(all: set<T>, part: set<T>)
    requires part <= all
    ensures |all - part| == |all| - |part|
    decreases |part|
  {
    if part == {} {
      assert all - part == all;
    } else {
      var x :| x in part;
      Fewer(all - {x}, part - {x});
      assert all - part == (all - {x}) - (part - {x});
    }
  }

  /** How many names there are that a collection looks at. */
  function NameCount(s: Files): nat {
    |s.objects.Keys| + |s.manifests.Keys| + |s.temps|
  }

  lemma CollectedCount(s: Files, u: Files, objects: set<Digest>, manifests: set<Digest>)
    requires Collected(s, u, objects, manifests, s.temps) && objects <= s.objects.Keys && manifests <= s.manifests.Keys
    ensures |objects| + |manifests| + |s.temps| == NameCount(s) - NameCount(u)
  {
    Fewer(s.objects.Keys, objects);
    Fewer(s.manifests.Keys, manifests);
    assert u.objects.Keys == s.objects.Keys - objects && u.manifests.Keys == s.manifests.Keys - manifests && u.temps == {};
  }

  lemma SamePins(s: Files, u: Files, d: Digest)
    requires Collected(s, u, {}, {}, {})
    ensures ObjectPinned(s, d) <==> ObjectPinned(u, d)
    ensures d in s.manifests ==> d in u.manifests && (ManifestPinned(s, d) <==> ManifestPinned(u, d))
  {
    if d in s.manifests {
      assert u.manifests[d] == s.manifests[d];
    }
  }

  class ObjectStore {
    const sha: Content -> Digest
    const named: Digest -> J.Manifest

    var files: Files
    /** What other threads are going to do, one turn at a time. */
    var others: seq<seq<Deed>>
    /** Every state of the shared files so far, the present one last. */
    ghost var points: seq<Files>

    ghost predicate Past()
      reads this`files, this`points
    {
      points != [] && points[|points| - 1] == files && forall i :: 0 <= i < |points| ==> Inv(sha, named, points[i])
    }

    ghost predicate Valid()
      reads this`files, this`points
    {
      Past() && NoCollisions(sha)
    }

    constructor (sha: Content -> Digest, named: Digest -> J.Manifest, files: Files, others: seq<seq<Deed>>)
      requires NoCollisions(sha) && Inv(sha, named, files)
      ensures Valid() && this.sha == sha && this.named == named && this.files == files && this.others == others && points == [files]
    {
      this.sha, this.named, this.files, this.others, points := sha, named, files, others, [files];
    }

    /** The states since an earlier moment agree with a given one on all that the lock protects. */
    ghost predicate Since(from: nat, u: Files, owner: Option<TransferId>)
      reads this`points
    {
      from <= |points| && forall i :: from <= i < |points| ==> Meanwhile(u, points[i], owner)
    }

    /** What the others do in their next turn, one deed after the other, and the turns they have left. */
    function AfterTurn(s: Files, turns: seq<seq<Deed>>, owner: Option<TransferId>): Files {
      if turns == [] then s else AllDone(s, turns[0], owner)
    }

    function AllDone(s: Files, deeds: seq<Deed>, owner: Option<TransferId>): Files
      decreases |deeds|
    {
      if deeds == [] then s else AllDone(Done(s, deeds[0], owner), deeds[1..], owner)
    }

    function Later(turns: seq<seq<Deed>>): seq<seq<Deed>> {
      if turns == [] then [] else turns[1..]
    }

    /** Other threads take a turn. */
    method Yield(owner: Option<TransferId>)
      requires Valid()
      modifies this
      ensures Valid() && Meanwhile(old(files), files, owner)
      ensures old(points) <= points && Since(|old(points)|, old(files), owner)
      ensures files == AfterTurn(old(files), old(others), owner) && others == Later(old(others))
    {
      hide Inv, Meanwhile, Done;
      MeanwhileTrans(files, files, files, owner);
      if others == [] {
        return;
      }
      var deeds := others[0];
      others := others[1..];
      var i := 0;
      while i < |deeds|
        invariant Valid() && Meanwhile(old(files), files, owner)
        invariant old(points) <= points && Since(|old(points)|, old(files), owner)
        invariant 0 <= i <= |deeds| && AllDone(files, deeds[i..], owner) == AllDone(old(files), deeds, owner) && others == old(others)[1..]
      {
        assert deeds[i..][1..] == deeds[i + 1..];
        DoneKeeps(sha, named, files, deeds[i], owner);
        ghost var was := files;
        files := Done(files, deeds[i], owner);
        points := points + [files];
        MeanwhileTrans(old(files), was, files, owner);
        i := i + 1;
      }
    }

    /** One change to the shared files, and a turn for everybody else. */
    method Step(u: Files, owner: Option<TransferId>)
      requires Valid() && Inv(sha, named, u)
      modifies this
      ensures Valid() && Meanwhile(u, files, owner)
      ensures old(points) + [u] <= points && Since(|old(points)|, u, owner)
      ensures files == AfterTurn(u, old(others), owner) && others == Later(old(others))
    {
      hide Inv, Meanwhile, AfterTurn, Later;
      files := u;
      points := points + [u];
      MeanwhileTrans(u, u, u, owner);
      Yield(owner);
    }

    /** Work on a publication since it began: all states from then on are such work. */
    ghost predicate Working(s: Files, ps: seq<Files>, pub: Publication)
      reads this`files, this`points
    {
      Valid() && ps <= points && Along(points, |ps|, s, pub) && Advances(s, files, pub)
    }

    /** One change on behalf of a publication. */
    method Advance(u: Files, ghost s: Files, ghost ps: seq<Files>, pub: Publication)
      requires Working(s, ps, pub) && Inv(sha, named, u) && Advances(files, u, pub)
      modifies this
      ensures Working(s, ps, pub) && Meanwhile(u, files, Some(pub.transfer)) && Advances(old(files), files, pub)
      ensures old(points) + [u] <= points
    {
      hide Inv, Meanwhile, Advances;
      ghost var was, seen := files, points;
      Step(u, Some(pub.transfer));
      forall i | |seen| <= i < |points| ensures Advances(was, points[i], pub) {
        MeanwhileAdvances(was, u, points[i], pub);
      }
      MeanwhileAdvances(was, u, files, pub);
      AlongExtends(seen, points, |ps|, s, was, pub);
      AdvancesTrans(s, was, files, pub);
    }

    // -------------------------------------------------------------- publishing a stage

    predicate Publishable(pub: Publication, staged: seq<StagedFile>)
      reads this`files
    {
      && named(pub.manifest.digest) == pub.manifest && Finished(pub.manifest) && Covers(pub.manifest, staged)
      && (forall f :: f in staged ==> FitsEntry(pub.manifest, f) && StillStaged(files, pub.transfer, f))
      && ReceiptFree(files, pub)
    }

    /** Everything is checked before anything is published. */
    method CheckStaged(pub: Publication, staged: seq<StagedFile>) returns (fault: Option<StoreError>)
      ensures fault.None? <==> forall f :: f in staged ==> FitsEntry(pub.manifest, f) && StillStaged(files, pub.transfer, f)
      ensures fault.None? ==> forall f :: f in staged ==> TrueEvidence(files, pub, f)
      ensures fault.Some? ==> fault.value in {InvalidStage, StageChanged}
    {
      var i := 0;
      while i < |staged|
        invariant 0 <= i <= |staged|
        invariant forall j :: 0 <= j < i ==> FitsEntry(pub.manifest, staged[j]) && StillStaged(files, pub.transfer, staged[j])
      {
        if !FitsEntry(pub.manifest, staged[i]) {
          return Some(InvalidStage);
        }
        if !StillStaged(files, pub.transfer, staged[i]) {
          return Some(StageChanged);
        }
        i := i + 1;
      }
      return None;
    }

    /** Replaces the transfer's links in one step. */
    method Attach(p: Pending, ghost s: Files, ghost ps: seq<Files>, pub: Publication)
      requires Working(s, ps, pub) && PinsHold(files, p) && OneStep(files, pub.transfer, p)
      requires Begun(files, pub) ==> Begun(WithPending(files, pub.transfer, p), pub)
      modifies this
      ensures Working(s, ps, pub) && Attached(old(files), files, p, pub) && Advances(old(files), files, pub)
      ensures old(points) + [WithPending(old(files), pub.transfer, p)] <= points
    {
      hide Inv, Meanwhile, Advances, PinsHold, Begun, Along, WithPending, Attached, OneStep;
      ghost var was := files;
      assert Inv(sha, named, files);
      AttachAdvances(sha, named, files, p, pub);
      Advance(WithPending(files, pub.transfer, p), s, ps, pub);
      MeanwhileAttached(was, files, p, pub);
    }

    /** Some state since an earlier moment has litter beside the links of a transfer. */
    ghost predicate LitteredSince(from: nat, t: TransferId)
      reads this`points
    {
      exists i :: from <= i < |points| && Littered(points[i], t)
    }

    /** Puts the receipt into the transfer's directory by way of a temporary file: a process that dies in
        between leaves that file beside the links. */
    method InstallReceipt(ghost s: Files, ghost ps: seq<Files>, pub: Publication)
      requires Working(s, ps, pub) && ReceiptFree(files, pub)
      modifies this
      ensures Working(s, ps, pub) && pub.transfer in files.pending
      ensures files.pending[pub.transfer] == Opened(old(files), pub.transfer).(receipt := Some(ReceiptOf(pub)))
      ensures old(points) <= points
      ensures old(Opened(files, pub.transfer).receipt.None?) ==> LitteredSince(|old(points)|, pub.transfer)
      ensures old(Opened(files, pub.transfer).receipt.Some?) ==> files == old(files) && points == old(points)
    {
      hide PinsHold, Begun, Attached, Advances, Along, Inv;
      ghost var start := files;
      var p := Opened(files, pub.transfer);
      if pub.transfer !in files.pending {
        OpenedHolds(sha, named, files, pub.transfer);
        BegunWith(files, p, pub);
        Attach(p, s, ps, pub);
      } else {
        AttachedSelf(files, pub);
      }
      if p.receipt.None? {
        var q := p.(litter := p.litter + 1);
        ghost var at := |points|;
        ChangeReceipt(q, start, p, s, ps, pub);
        assert Littered(points[at], pub.transfer);
        var r := q.(receipt := Some(ReceiptOf(pub)));
        ChangeReceipt(r, start, q, s, ps, pub);
        ChangeReceipt(p.(receipt := Some(ReceiptOf(pub))), start, r, s, ps, pub);
      }
      AttachedIs(start, files, p.(receipt := Some(ReceiptOf(pub))), pub);
    }

    /** A step that changes no pin. */
    method ChangeReceipt(p: Pending, ghost start: Files, ghost q: Pending, ghost s: Files, ghost ps: seq<Files>, pub: Publication)
      requires Working(s, ps, pub) && Attached(start, files, q, pub) && p.pins == q.pins && p.manifest == q.manifest
      requires p.receipt == q.receipt || p.receipt == Some(ReceiptOf(pub))
      requires OneLink(q, p)
      modifies this
      ensures Working(s, ps, pub) && Attached(start, files, p, pub)
      ensures old(points) <= points && |old(points)| < |points| && LeftOf(points[|old(points)|], pub.transfer, p)
    {
      hide Advances, Along, Inv, Attached, PinsHold, Begun;
      assert Inv(sha, named, files);
      ReceiptChangeHolds(sha, named, files, start, q, p, pub);
      AttachedIs(start, files, q, pub);
      ghost var was := files;
      Attach(p, s, ps, pub);
      AttachedTrans(start, was, files, q, p, pub);
    }

    /** The object of one staged file: the file's own inode, unless the object is there already. */
    method LinkFile(f: StagedFile, ghost s: Files, ghost ps: seq<Files>, pub: Publication)
      requires Working(s, ps, pub) && pub.transfer in files.pending && StillStaged(files, pub.transfer, f)
      requires sha(files.blobs[f.fingerprint].bytes) == f.sha
      modifies this
      ensures Working(s, ps, pub) && Advances(old(files), files, pub) && files.pending == old(files).pending && old(points) <= points
      ensures f.sha in files.objects && files.objects[f.sha] in files.blobs
      ensures var b := files.blobs[files.objects[f.sha]]; b.Data? && |b.bytes| == f.size
    {
      hide Inv, Along, Advances, Meanwhile, LinkedObject;
      ghost var was := files;
      AdvancesTrans(files, files, files, pub);
      if f.sha !in files.objects {
        assert Inv(sha, named, files);
        ObjectAdvances(sha, named, files, f.sha, f.fingerprint, pub);
        var u := LinkedObject(files, f.sha, f.fingerprint);
        Advance(u, s, ps, pub);
        MeanwhileLinked(was, u, files, f.sha, f.fingerprint, pub);
      } else {
        assert Inv(sha, named, files);
        SameBytes(sha, named, files, f.sha, f.fingerprint);
      }
    }

    /** Pins the object's inode for the transfer. */
    method PinFile(f: StagedFile, ghost s: Files, ghost ps: seq<Files>, pub: Publication)
      requires Working(s, ps, pub) && pub.transfer in files.pending && f.sha in Hashes(pub.manifest)
      requires f.sha in files.objects && files.objects[f.sha] in files.blobs
      requires files.blobs[files.objects[f.sha]].Data? && |files.blobs[files.objects[f.sha]].bytes| == f.size
      modifies this
      ensures Working(s, ps, pub) && Advances(old(files), files, pub) && PinnedObject(sha, files, pub.transfer, f.sha, f.size) && old(points) <= points
      ensures pub.transfer in files.pending && MorePins(old(files).pending[pub.transfer], files.pending[pub.transfer])
      ensures f.sha in old(files).pending[pub.transfer].pins ==> files == old(files) && points == old(points)
    {
      hide Inv, Along, Advances, Attached, PinsHold, Begun, OneLink;
      ghost var was := files;
      assert Inv(sha, named, files);
      var p := files.pending[pub.transfer];
      PinHolds(sha, named, files, pub.transfer, f.sha, f.size);
      if f.sha in p.pins {
        AdvancesTrans(files, files, files, pub);
      } else {
        var q := p.(pins := p.pins[f.sha := files.objects[f.sha]]);
        PinIsOneLink(p, f.sha, files.objects[f.sha]);
        BegunWith(files, q, pub);
        Attach(q, s, ps, pub);
        NewlyPinned(sha, named, was, files, q, pub, f.sha);
      }
    }

    /** Every staged file becomes an object pinned for the transfer. */
    method LinkFiles(staged: seq<StagedFile>, ghost s: Files, ghost ps: seq<Files>, pub: Publication)
      requires Working(s, ps, pub) && pub.transfer in files.pending && Evidence(sha, files, staged)
      requires forall f :: f in staged ==> StillStaged(files, pub.transfer, f) && f.sha in Hashes(pub.manifest)
      modifies this
      ensures Working(s, ps, pub) && Advances(old(files), files, pub) && old(points) <= points
      ensures pub.transfer in files.pending && MorePins(old(files).pending[pub.transfer], files.pending[pub.transfer])
      ensures forall f :: f in staged ==> PinnedObject(sha, files, pub.transfer, f.sha, f.size)
    {
      hide Working, Advances, PinnedObject;
      ghost var start := files;
      AdvancesTrans(files, files, files, pub);
      var i := 0;
      while i < |staged|
        invariant 0 <= i <= |staged|
        invariant Working(s, ps, pub) && Advances(start, files, pub) && old(points) <= points
        invariant pub.transfer in files.pending && MorePins(start.pending[pub.transfer], files.pending[pub.transfer])
        invariant forall j :: 0 <= j < i ==> PinnedObject(sha, files, pub.transfer, staged[j].sha, staged[j].size)
      {
        ghost var was := files;
        LinkOne(staged[i], start, s, ps, pub);
        forall j | 0 <= j < i ensures PinnedObject(sha, files, pub.transfer, staged[j].sha, staged[j].size) {
          PinnedStays(sha, was, files, pub, staged[j].sha, staged[j].size);
        }
        i := i + 1;
      }
    }

    method LinkOne(f: StagedFile, ghost start: Files, ghost s: Files, ghost ps: seq<Files>, pub: Publication)
      requires Working(s, ps, pub) && Advances(start, files, pub)
      requires pub.transfer in start.pending && pub.transfer in files.pending && MorePins(start.pending[pub.transfer], files.pending[pub.transfer])
      requires StillStaged(start, pub.transfer, f) && sha(start.blobs[f.fingerprint].bytes) == f.sha && f.sha in Hashes(pub.manifest)
      modifies this
      ensures Working(s, ps, pub) && Advances(start, files, pub) && Advances(old(files), files, pub) && old(points) <= points
      ensures pub.transfer in files.pending && MorePins(start.pending[pub.transfer], files.pending[pub.transfer])
      ensures MorePins(old(files).pending[pub.transfer], files.pending[pub.transfer])
      ensures PinnedObject(sha, files, pub.transfer, f.sha, f.size)
    {
      hide Working, Advances, PinnedObject;
      ghost var a := files;
      StagedStays(start, files, f, pub);
      LinkFile(f, s, ps, pub);
      ghost var b := files;
      PinFile(f, s, ps, pub);
      AdvancesTrans(a, b, files, pub);
      AdvancesTrans(start, a, files, pub);
    }

    /** The manifest's text under its digest. A process that dies in between leaves a temporary file
        to the collector. */
    method LinkManifest(ghost s: Files, ghost ps: seq<Files>, pub: Publication)
      requires Working(s, ps, pub) && named(pub.manifest.digest) == pub.manifest
      modifies this
      ensures Working(s, ps, pub) && Advances(old(files), files, pub) && files.pending == old(files).pending && old(points) <= points
      ensures pub.manifest.digest in files.manifests
      ensures pub.manifest.digest !in old(files).manifests ==>
        && |old(points)| < |points|
        && points[|old(points)|].temps == old(files).temps + {old(files).next} && points[|old(points)|].manifests == old(files).manifests
    {
      hide Along, Advances, Meanwhile, TextWritten, LinkedManifest, Inv;
      AdvancesTrans(files, files, files, pub);
      if pub.manifest.digest !in files.manifests {
        ghost var a := files;
        var temp := files.next;
        TextIsTemporary(files, pub.manifest);
        assert Inv(sha, named, files);
        TextAdvances(sha, named, files, pub);
        Advance(TextWritten(files, pub.manifest), s, ps, pub);
        TextMeanwhile(a, files, pub);
        ghost var b := files;
        ManifestAdvances(sha, named, files, temp, pub);
        Advance(LinkedManifest(files, pub.manifest.digest, temp), s, ps, pub);
        ManifestMeanwhile(b, files, temp, pub);
        ghost var c := files;
        TempAdvances(sha, named, files, temp, pub);
        Advance(files.(temps := files.temps - {temp}), s, ps, pub);
        TempMeanwhile(c, files, temp, pub);
        AdvancesTrans(a, b, c, pub);
        AdvancesTrans(a, c, files, pub);
      }
    }

    /** Pins the manifest's text for the transfer. */
    method PinManifest(ghost s: Files, ghost ps: seq<Files>, pub: Publication)
      requires Working(s, ps, pub) && named(pub.manifest.digest) == pub.manifest
      requires pub.transfer in files.pending && pub.manifest.digest in files.manifests
      modifies this
      ensures Working(s, ps, pub) && Advances(old(files), files, pub) && old(points) <= points
      ensures pub.transfer in files.pending && files.pending[pub.transfer] == old(files).pending[pub.transfer].(manifest := files.pending[pub.transfer].manifest)
      ensures var p := files.pending[pub.transfer]; p.manifest.Some? && p.manifest.value in files.blobs && files.blobs[p.manifest.value] == Text(pub.manifest)
    {
      hide Along, Advances, Meanwhile, Inv, PinsHold, Begun;
      var p := files.pending[pub.transfer];
      assert Inv(sha, named, files);
      AdvancesTrans(files, files, files, pub);
      OpenedHolds(sha, named, files, pub.transfer);
      ManifestPinHolds(sha, named, files, pub.manifest, p);
      var pin := Some(files.manifests[pub.manifest.digest]);
      if p.manifest != pin {
        ghost var a := files;
        if p.manifest.Some? {
          ManifestPinHolds(sha, named, files, pub.manifest, p);
          Unhooked(files, p);
          BegunWith(files, p.(manifest := None), pub);
          Attach(p.(manifest := None), s, ps, pub);
        }
        ghost var b := files;
        OpenedHolds(sha, named, files, pub.transfer);
        ManifestPinHolds(sha, named, files, pub.manifest, files.pending[pub.transfer]);
        BegunWith(files, p.(manifest := pin), pub);
        Attach(p.(manifest := pin), s, ps, pub);
        AdvancesTrans(a, b, files, pub);
      }
    }

    /** Publishes the verified files of a stage and binds the transfer to them. Nothing is deleted, and
        a process that dies on the way leaves everything deliverable as it was. */
    method PublishStagedTransfer(pub: Publication, staged: seq<StagedFile>) returns (r: Result<Publication, StoreError>)
      requires Valid() && Evidence(sha, files, staged)
      modifies this
      ensures Valid() && old(points) <= points && Along(points, |old(points)|, old(files), pub)
      ensures Advances(old(files), files, pub)
      ensures r.Ok? <==> old(Publishable(pub, staged))
      ensures r.Ok? ==> OneEach(pub.manifest, staged) && forall f :: f in staged ==> old(TrueEvidence(files, pub, f))
      ensures r.Ok? && old(pub.transfer in files.pending && files.pending[pub.transfer].receipt.Some?) ==>
        old(files).pending[pub.transfer].receipt.value == Receipt(pub.transfer, pub.provisional, pub.manifest.digest, pub.manifest.item, pub.manifest.revision)
      ensures r.Ok? ==> r.value == pub && Protected(files, pub)
      ensures r.Ok? ==> files.pending[pub.transfer].litter == Opened(old(files), pub.transfer).litter
      ensures r.Ok? && old(Opened(files, pub.transfer).receipt.None?) ==> LitteredSince(|old(points)|, pub.transfer)
      ensures r.Err? ==> files == old(files)
    {
      hide Along, Advances, Inv, PinsHold, Begun, Attached, PinnedObject, StillStaged;
      ghost var s, ps := files, points;
      AdvancesTrans(files, files, files, pub);
      AlongNothing(ps, s, pub);
      if named(pub.manifest.digest) != pub.manifest || !Finished(pub.manifest) {
        return Err(InvalidObject);
      }
      if !Covers(pub.manifest, staged) {
        return Err(InvalidStage);
      }
      CoversExactly(pub.manifest, staged);
      hide OneEach, TrueEvidence, Covers, ReceiptOf;
      var fault := CheckStaged(pub, staged);
      if fault.Some? {
        return Err(fault.value);
      }
      if !ReceiptFree(files, pub) {
        return Err(PublicationConflict);
      }
      InstallReceipt(s, ps, pub);
      ghost var installed := points;
      ghost var a := files;
      EvidenceStays(sha, s, a, staged, pub);
      LinkFiles(staged, s, ps, pub);
      ghost var b := files;
      LinkManifest(s, ps, pub);
      ghost var c := files;
      PinManifest(s, ps, pub);
      AdvancesTrans(b, c, files, pub);
      PublishedProtects(sha, b, files, staged, pub);
      if Opened(s, pub.transfer).receipt.None? {
        StillLittered(ps, installed, points, pub.transfer);
      }
      r := Ok(pub);
    }

    // -------------------------------------------------------------- giving links up

    /** Removes the links of a committed transfer, in whatever order the directory lists them. */
    method ReleaseCommittedPins(ghost s: Files, ghost ps: seq<Files>, pub: Publication) returns (ok: bool)
      requires Working(s, ps, pub)
      modifies this
      ensures Working(s, ps, pub) && Advances(old(files), files, pub)
      ensures ok <==> old(pub.transfer in files.pending ==> Releasable(files.pending[pub.transfer], pub))
      ensures ok ==> pub.transfer !in files.pending
      ensures ok && old(pub.transfer in files.pending) ==> OwnLinks(old(files).pending[pub.transfer], pub)
      ensures !ok ==> files == old(files)
    {
      hide Along, Advances, Meanwhile, Inv, PinsHold, Begun, Attached, OwnLinks;
      AdvancesTrans(files, files, files, pub);
      if pub.transfer !in files.pending {
        return true;
      }
      ReleasableMeans(files.pending[pub.transfer], pub);
      if !Releasable(files.pending[pub.transfer], pub) {
        return false;
      }
      ghost var start := files;
      DropLinks(s, ps, start, pub);
      DropDirectory(s, ps, start, pub);
      ok := true;
    }

    method DropDirectory(ghost s: Files, ghost ps: seq<Files>, ghost start: Files, pub: Publication)
      requires Working(s, ps, pub) && Advances(start, files, pub)
      requires pub.transfer in files.pending && files.pending[pub.transfer] == Pending(None, None, map[], 0)
      modifies this
      ensures Working(s, ps, pub) && Advances(start, files, pub) && pub.transfer !in files.pending
    {
      hide Along, Advances, Meanwhile, Inv, PinsHold, Begun, Attached;
      ghost var was := files;
      assert Inv(sha, named, files);
      DroppedAdvances(sha, named, files, pub);
      Advance(files.(pending := files.pending - {pub.transfer}), s, ps, pub);
      DroppedMeanwhile(was, files, pub.transfer);
      AdvancesTrans(start, was, files, pub);
    }

    /** The links go one after the other, until the directory is empty. */
    method DropLinks(ghost s: Files, ghost ps: seq<Files>, ghost start: Files, pub: Publication)
      requires Working(s, ps, pub) && Advances(start, files, pub) && pub.transfer in files.pending && files.pending[pub.transfer].litter == 0
      modifies this
      ensures Working(s, ps, pub) && Advances(start, files, pub)
      ensures pub.transfer in files.pending && files.pending[pub.transfer] == Pending(None, None, map[], 0)
    {
      hide Along, Advances, Meanwhile, Inv, PinsHold, Begun, Attached, Children, OneLink, Without;
      while Children(files.pending[pub.transfer]) != {}
        invariant Working(s, ps, pub) && Advances(start, files, pub) && pub.transfer in files.pending
        invariant files.pending[pub.transfer].litter == 0
        decreases |Children(files.pending[pub.transfer])|
      {
        ghost var was := files;
        var c :| c in Children(files.pending[pub.transfer]);
        assert Inv(sha, named, files);
        FewerChildren(sha, named, files, c, pub);
        var q := Without(files.pending[pub.transfer], c);
        ChildIsOneLink(files.pending[pub.transfer], c);
        Attach(q, s, ps, pub);
        AttachedIs(was, files, q, pub);
        AdvancesTrans(start, was, files, pub);
      }
      EmptyDirectory(files.pending[pub.transfer]);
    }

    /** Litter blocks a transfer for ever: neither can its links be released after a commit nor can they be
        discarded, whoever asks, and neither call changes anything. */
    method LitterBlocks(pub: Publication, provisional: Digest) returns (released: bool, discarded: Result<bool, StoreError>)
      requires Valid() && Littered(files, pub.transfer)
      modifies this
      ensures Valid() && files == old(files)
      ensures !released && discarded.Err?
    {
      hide Along, Advances, Inv;
      AdvancesTrans(files, files, files, pub);
      AlongNothing(points, files, pub);
      released := ReleaseCommittedPins(files, points, pub);
      discarded := DiscardPending(pub.transfer, provisional);
    }

    /** Discards the links of a transfer that is given up. The receipt goes last, so the same request can
        be repeated after an interruption at any point. */
    method DiscardPending(t: TransferId, provisional: Digest) returns (r: Result<bool, StoreError>)
      requires Valid()
      modifies this
      ensures Valid() && old(points) <= points && WorksFor(old(files), files, t)
      ensures r == Ok(false) <==> old(t !in files.pending)
      ensures r == Ok(true) <==> old(t in files.pending && Discardable(files.pending[t], t, provisional))
      ensures r.Err? <==> old(t in files.pending && !Discardable(files.pending[t], t, provisional))
      ensures r.Ok? ==> t !in files.pending
      ensures r.Err? ==> files == old(files)
      ensures r.Ok? ==> forall i :: |old(points)| <= i < |points| ==> Retryable(points[i], t, provisional)
    {
      hide Along, Advances, Meanwhile, Inv, PinsHold, Begun, Attached, WorksFor;
      WorksForTrans(files, files, files, t);
      if t !in files.pending {
        return Ok(false);
      }
      var p := files.pending[t];
      var fault := CheckReceipt(p, t, provisional);
      if fault.Some? {
        return Err(fault.value);
      }
      RemoveLinks(t, provisional, files);
      RemoveDirectory(t, provisional, old(files));
      r := Ok(true);
    }

    /** Binding and safety are checked before anything is deleted. */
    method CheckReceipt(p: Pending, t: TransferId, provisional: Digest) returns (fault: Option<StoreError>)
      ensures fault.None? <==> Discardable(p, t, provisional)
      ensures fault.Some? ==> fault.value in {StoreIo, PublicationConflict, InvalidObject}
    {
      if Children(p) != {} || p.litter != 0 {
        if p.receipt.None? {
          return Some(StoreIo);
        }
        if p.receipt.value.transfer != t || p.receipt.value.provisional != provisional {
          return Some(PublicationConflict);
        }
        if p.litter != 0 {
          return Some(InvalidObject);
        }
      }
      return None;
    }

    method RemoveLinks(t: TransferId, ghost provisional: Digest, ghost start: Files)
      requires Valid() && t in files.pending && WorksFor(start, files, t) && Discardable(files.pending[t], t, provisional)
      modifies this
      ensures Valid() && old(points) <= points && WorksFor(start, files, t)
      ensures t in files.pending && files.pending[t] == Pending(None, None, map[], 0)
      ensures forall i :: |old(points)| <= i < |points| ==> Retryable(points[i], t, provisional)
    {
      hide Inv, WorksFor, Without, Children, Retryable;
      while Children(files.pending[t]) - {ReceiptFile} != {}
        invariant Valid() && old(points) <= points && WorksFor(start, files, t) && t in files.pending
        invariant Discardable(files.pending[t], t, provisional)
        invariant forall i :: |old(points)| <= i < |points| ==> Retryable(points[i], t, provisional)
        decreases |Children(files.pending[t]) - {ReceiptFile}|
      {
        var c :| c in Children(files.pending[t]) - {ReceiptFile};
        FewerToGo(files.pending[t], c);
        Unhook(c, t, provisional, start);
      }
      ReceiptAlone(files.pending[t]);
      EmptyDirectory(Without(files.pending[t], ReceiptFile));
      EmptyDirectory(files.pending[t]);
      if files.pending[t].receipt.Some? {
        Unhook(ReceiptFile, t, provisional, start);
      }
    }

    method Unhook(c: Child, t: TransferId, ghost provisional: Digest, ghost start: Files)
      requires Valid() && t in files.pending && c in Children(files.pending[t]) && WorksFor(start, files, t)
      requires Discardable(Without(files.pending[t], c), t, provisional)
      modifies this
      ensures Valid() && old(points) <= points && WorksFor(start, files, t)
      ensures t in files.pending && files.pending[t] == Without(old(files).pending[t], c)
      ensures forall i :: |old(points)| <= i < |points| ==> Retryable(points[i], t, provisional)
    {
      hide Meanwhile, Inv, WorksFor, Without, Discardable, Children;
      ghost var was, seen := files, points;
      assert Inv(sha, named, files);
      UnhookWorks(sha, named, files, t, c);
      var u := WithPending(files, t, Without(files.pending[t], c));
      Step(u, Some(t));
      forall i | |seen| <= i < |points| ensures Retryable(points[i], t, provisional) {
        WorksForMeanwhile(was, u, points[i], t);
      }
      WorksForMeanwhile(was, u, files, t);
      WorksForTrans(start, was, files, t);
    }

    method RemoveDirectory(t: TransferId, ghost provisional: Digest, ghost start: Files)
      requires Valid() && WorksFor(start, files, t) && t in files.pending && files.pending[t] == Pending(None, None, map[], 0)
      modifies this
      ensures Valid() && old(points) <= points && WorksFor(start, files, t) && t !in files.pending
      ensures forall i :: |old(points)| <= i < |points| ==> Retryable(points[i], t, provisional)
    {
      hide Meanwhile, Inv, WorksFor, Discardable;
      ghost var was, seen := files, points;
      assert Inv(sha, named, files);
      RemovalWorks(sha, named, files, t);
      var u := files.(pending := files.pending - {t});
      Step(u, Some(t));
      forall i | |seen| <= i < |points| ensures Retryable(points[i], t, provisional) {
        WorksForMeanwhile(was, u, points[i], t);
      }
      WorksForMeanwhile(was, u, files, t);
      WorksForTrans(start, was, files, t);
    }

    // -------------------------------------------------------------- collecting garbage

    /** What the deliverable rows of all profiles refer to. */
    method References() returns (objects: set<Digest>, manifests: set<Digest>)
      ensures forall d :: d in objects <==> ObjectNeeded(files, d)
      ensures forall d :: d in manifests <==> ManifestNeeded(files, d)
    {
      objects, manifests := {}, {};
      var left := files.indexes.Keys;
      while left != {}
        invariant left <= files.indexes.Keys
        invariant forall d :: d in objects <==> NeedsObject(files, files.indexes.Keys - left, d)
        invariant forall d :: d in manifests <==> NeedsManifest(files, files.indexes.Keys - left, d)
      {
        var p :| p in left;
        var rows := files.indexes[p].rows;
        var i := 0;
        ghost var objectsBefore, manifestsBefore := objects, manifests;
        while i < |rows|
          invariant 0 <= i <= |rows|
          invariant forall d :: d in objects <==> d in objectsBefore || exists k :: 0 <= k < i && Live(rows[k]) && d in Hashes(rows[k].manifest)
          invariant forall d :: d in manifests <==> d in manifestsBefore || exists k :: 0 <= k < i && Live(rows[k]) && rows[k].manifest.digest == d
        {
          if rows[i].published {
            if rows[i].deliverable {
              manifests := manifests + {rows[i].manifest.digest};
              objects := objects + Hashes(rows[i].manifest);
            }
          }
          i := i + 1;
        }
        OneMoreProfile(files, files.indexes.Keys - left, p);
        assert files.indexes.Keys - (left - {p}) == files.indexes.Keys - left + {p};
        left := left - {p};
      }
      assert files.indexes.Keys - left == files.indexes.Keys;
    }

    /** At every moment since then the object had no name but its own. */
    ghost predicate ObjectBare(from: nat, d: Digest)
      reads this`points
    {
      forall i :: from <= i < |points| && d in points[i].objects ==> |Links(points[i], points[i].objects[d])| == 1
    }

    ghost predicate ManifestBare(from: nat, d: Digest)
      reads this`points
    {
      forall i :: from <= i < |points| && d in points[i].manifests ==> |Links(points[i], points[i].manifests[d])| == 1
    }

    method ScanObjects(needed: set<Digest>, ghost start: Files, ghost from: nat) returns (dead: set<Digest>)
      requires Valid() && Collected(start, files, {}, {}, {}) && from < |points|
      requires forall d :: d in needed <==> ObjectNeeded(start, d)
      modifies this
      ensures Valid() && old(points) <= points && Collected(start, files, {}, {}, {})
      ensures dead <= start.objects.Keys && forall d :: d in dead ==> ObjectDead(start, d)
      ensures forall d :: d in start.objects && d !in dead ==> ObjectNeeded(start, d) || !ObjectBare(from, d)
    {
      hide Inv, Links, ObjectNeeded, ObjectPinned, Meanwhile, Collected;
      dead := {};
      CollectedNames(start, files);
      var left := files.objects.Keys;
      while left != {}
        invariant Valid() && old(points) <= points && Collected(start, files, {}, {}, {})
        invariant left <= start.objects.Keys && dead <= start.objects.Keys
        invariant forall d :: d in dead ==> ObjectDead(start, d)
        invariant forall d :: d in start.objects && d !in dead && d !in left ==> ObjectNeeded(start, d) || !ObjectBare(from, d)
      {
        CollectedNames(start, files);
        var d :| d in left;
        if d !in needed {
          assert points[|points| - 1] == files;
          if |Links(files, files.objects[d])| == 1 {
            assert Inv(sha, named, files);
            PinIsALink(sha, named, files, d);
            SamePins(start, files, d);
            dead := dead + {d};
          } else {
            assert !ObjectBare(from, d);
          }
        }
        left := left - {d};
        ghost var was := files;
        Yield(None);
        CollectedOn(start, was, files, {}, {}, {});
      }
    }

    method ScanManifests(needed: set<Digest>, ghost start: Files, ghost from: nat) returns (dead: set<Digest>)
      requires Valid() && Collected(start, files, {}, {}, {}) && from < |points|
      requires forall d :: d in needed <==> ManifestNeeded(start, d)
      modifies this
      ensures Valid() && old(points) <= points && Collected(start, files, {}, {}, {})
      ensures dead <= start.manifests.Keys && forall d :: d in dead ==> ManifestDead(start, d)
      ensures forall d :: d in start.manifests && d !in dead ==> ManifestNeeded(start, d) || !ManifestBare(from, d)
    {
      hide Inv, Links, ManifestNeeded, ManifestPinned, Meanwhile, Collected;
      dead := {};
      CollectedNames(start, files);
      var left := files.manifests.Keys;
      while left != {}
        invariant Valid() && old(points) <= points && Collected(start, files, {}, {}, {})
        invariant left <= start.manifests.Keys && dead <= start.manifests.Keys
        invariant forall d :: d in dead ==> ManifestDead(start, d)
        invariant forall d :: d in start.manifests && d !in dead && d !in left ==> ManifestNeeded(start, d) || !ManifestBare(from, d)
      {
        CollectedNames(start, files);
        var d :| d in left;
        if d !in needed {
          assert points[|points| - 1] == files;
          if |Links(files, files.manifests[d])| == 1 {
            assert Inv(sha, named, files);
            PinIsALink(sha, named, files, d);
            SamePins(start, files, d);
            dead := dead + {d};
          } else {
            assert !ManifestBare(from, d);
          }
        }
        left := left - {d};
        ghost var was := files;
        Yield(None);
        CollectedOn(start, was, files, {}, {}, {});
      }
    }

    /** Removes what nobody refers to and nothing else links to; what an interrupted publication left
        behind goes too. Returns how many names went. */
    method CollectGarbage() returns (count: nat)
      requires Valid()
      modifies this
      ensures count == NameCount(old(files)) - NameCount(files)
      ensures Valid() && old(points) <= points
      ensures files.pending == old(files).pending && files.indexes == old(files).indexes && files.temps == {}
      ensures forall d :: d in files.objects ==> d in old(files).objects && files.objects[d] == old(files).objects[d]
      ensures forall d :: d in files.manifests ==> d in old(files).manifests && files.manifests[d] == old(files).manifests[d]
      ensures forall d :: d in old(files).objects && d !in files.objects ==> ObjectDead(old(files), d)
      ensures forall d :: d in old(files).manifests && d !in files.manifests ==> ManifestDead(old(files), d)
      ensures forall d :: d in files.objects ==> ObjectNeeded(old(files), d) || !ObjectBare(|old(points)| - 1, d)
      ensures forall d :: d in files.manifests ==> ManifestNeeded(old(files), d) || !ManifestBare(|old(points)| - 1, d)
    {
      hide Inv, Links, ObjectNeeded, ManifestNeeded, ObjectDead, ManifestDead, Meanwhile, Collected, NameCount;
      ghost var start, from := files, |points| - 1;
      MeanwhileTrans(files, files, files, None);
      CollectedNothing(files, files);
      var objects, manifests := References();
      var deadObjects := ScanObjects(objects, start, from);
      var deadManifests := ScanManifests(manifests, start, from);
      CollectedNames(start, files);
      var temps := files.temps;
      count := |deadObjects| + |deadManifests| + |temps|;
      UnlinkAll(deadObjects, deadManifests, temps, start);
      CollectedEnd(start, files, deadObjects, deadManifests, temps);
      CollectedCount(start, files, deadObjects, deadManifests);
    }

    method UnlinkAll(deadObjects: set<Digest>, deadManifests: set<Digest>, temps: set<Inode>, ghost start: Files)
      requires Valid() && Collected(start, files, {}, {}, {})
      requires deadObjects <= start.objects.Keys && forall d :: d in deadObjects ==> ObjectDead(start, d)
      requires deadManifests <= start.manifests.Keys && forall d :: d in deadManifests ==> ManifestDead(start, d)
      modifies this
      ensures Valid() && old(points) <= points && Collected(start, files, deadObjects, deadManifests, temps)
    {
      hide Inv, ObjectDead, ManifestDead, Meanwhile, Collected, WithoutObject, WithoutManifest;
      var left := deadObjects;
      assert deadObjects - left == {};
      while left != {}
        invariant Valid() && old(points) <= points && left <= deadObjects && Collected(start, files, deadObjects - left, {}, {})
      {
        var d :| d in left;
        CollectedHas(start, files, deadObjects - left, {}, {});
        assert Inv(sha, named, files);
        ObjectGoes(sha, named, start, files, deadObjects - left, {}, {}, d);
        var u := WithoutObject(files, d);
        Step(u, None);
        CollectedOn(start, u, files, deadObjects - left + {d}, {}, {});
        assert deadObjects - (left - {d}) == deadObjects - left + {d};
        left := left - {d};
      }
      assert deadObjects - left == deadObjects;
      left := deadManifests;
      assert deadManifests - left == {};
      while left != {}
        invariant Valid() && old(points) <= points && left <= deadManifests && Collected(start, files, deadObjects, deadManifests - left, {})
      {
        var d :| d in left;
        CollectedHas(start, files, deadObjects, deadManifests - left, {});
        assert Inv(sha, named, files);
        ManifestGoes(sha, named, start, files, deadObjects, deadManifests - left, {}, d);
        var u := WithoutManifest(files, d);
        Step(u, None);
        CollectedOn(start, u, files, deadObjects, deadManifests - left + {d}, {});
        assert deadManifests - (left - {d}) == deadManifests - left + {d};
        left := left - {d};
      }
      assert deadManifests - left == deadManifests;
      UnlinkTemps(deadObjects, deadManifests, temps, start);
    }

    method UnlinkTemps(ghost deadObjects: set<Digest>, ghost deadManifests: set<Digest>, temps: set<Inode>, ghost start: Files)
      requires Valid() && Collected(start, files, deadObjects, deadManifests, {})
      modifies this
      ensures Valid() && old(points) <= points && Collected(start, files, deadObjects, deadManifests, temps)
    {
      hide Inv, Meanwhile, Collected;
      var left := temps;
      assert temps - left == {};
      while left != {}
        invariant Valid() && old(points) <= points && left <= temps && Collected(start, files, deadObjects, deadManifests, temps - left)
      {
        var i :| i in left;
        assert Inv(sha, named, files);
        TempGoes(sha, named, start, files, deadObjects, deadManifests, temps - left, i);
        var u := files.(temps := files.temps - {i});
        Step(u, None);
        CollectedOn(start, u, files, deadObjects, deadManifests, temps - left + {i});
        assert temps - (left - {i}) == temps - left + {i};
        left := left - {i};
      }
      assert temps - left == temps;
    }
  }
}
