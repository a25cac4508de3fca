/** A sealed stage is published, committed and completed; what a crash leaves can be taken up again. */
module Delivery {
  import opened Common
  import opened Staging
  import S = StageState
  import opened IncomingStage
  import opened ObjectFiles
  import opened ObjectStore
  import opened ClipboardStore
  import J = ResumeJournal
  import R = StageRuns
  import T = TransferControl

  /** The publication of a sealed stage: its manifest with the hashes the stage computed. */
  ghost predicate Describes(named: Digest -> J.Manifest, manifest: J.Manifest, hashes: map<int, Digest>, pub: Publication) {
    && Proper(named, manifest, pub) && |pub.manifest.entries| == |manifest.entries|
    && forall k :: S.IsFile(manifest.entries, k) ==> k in hashes && pub.manifest.entries[k].expected == Some(hashes[k])
  }

  lemma SameShape(named: Digest -> J.Manifest, prior: J.Manifest, pub: Publication, k: nat)
    requires Proper(named, prior, pub) && |pub.manifest.entries| == |prior.entries| && k < |prior.entries|
    ensures pub.manifest.entries[k].kind == prior.entries[k].kind && pub.manifest.entries[k].size == prior.entries[k].size
  {
    if !Finished(prior) {
      assert pub.manifest.entries[k].(expected := prior.entries[k].expected) == prior.entries[k];
    }
  }

  function FilesBelow(m: J.Manifest, i: nat): set<int>
    requires i <= |m.entries|
  {
    set k | 0 <= k < i && m.entries[k].kind == J.File
  }

  lemma OneMoreFile(m: J.Manifest, i: nat)
    requires i < |m.entries|
    ensures FilesBelow(m, i + 1) == if m.entries[i].kind == J.File then FilesBelow(m, i) + {i} else FilesBelow(m, i)
    ensures i !in FilesBelow(m, i)
  {
  }

  /** The verified files of a sealed stage, with their hashes. */
  ghost predicate Verified(sha: Content -> Digest, manifest: J.Manifest, hashes: map<int, Digest>, held: map<nat, Content>) {
    forall i: nat :: S.IsFile(manifest.entries, i) ==>
      i in held && i in hashes && |held[i]| == manifest.entries[i].size && sha(held[i]) == hashes[i]
  }

  /** What is handed to the object store fits the manifest and is true. */
  ghost predicate HandedOver(sha: Content -> Digest, s: Files, pub: Publication, staged: seq<StagedFile>) {
    && Covers(pub.manifest, staged) && Evidence(sha, s, staged)
    && forall f :: f in staged ==> FitsEntry(pub.manifest, f) && StillStaged(s, pub.transfer, f)
  }

  /** What is said of one verified file is true and fits the manifest. */
  lemma StagedOne(sha: Content -> Digest, named: Digest -> J.Manifest, manifest: J.Manifest, hashes: map<int, Digest>, s: Files, pub: Publication,
                  held: map<nat, Content>, i: nat)
    requires Verified(sha, manifest, hashes, held) && Describes(named, manifest, hashes, pub) && StageThere(s, pub.transfer, held)
    requires S.IsFile(manifest.entries, i)
    ensures Slot(pub.transfer, i) in s.stages && i in hashes && pub.manifest.entries[i].kind == J.File
    ensures var f := StagedFile(i, manifest.entries[i].size, hashes[i], s.stages[Slot(pub.transfer, i)]);
            FitsEntry(pub.manifest, f) && StillStaged(s, pub.transfer, f) && Evidence(sha, s, [f])
  {
    SameShape(named, manifest, pub, i);
  }

  lemma EvidenceGrows(sha: Content -> Digest, s: Files, pub: Publication, staged: seq<StagedFile>, f: StagedFile)
    requires Evidence(sha, s, staged) && Evidence(sha, s, [f])
    requires FitsEntry(pub.manifest, f) && StillStaged(s, pub.transfer, f)
    requires forall g :: g in staged ==> FitsEntry(pub.manifest, g) && StillStaged(s, pub.transfer, g)
    ensures Evidence(sha, s, staged + [f]) && forall g :: g in staged + [f] ==> FitsEntry(pub.manifest, g) && StillStaged(s, pub.transfer, g)
  {
    hide FitsEntry, StillStaged;
    forall g | g in staged + [f] ensures g in staged || g in [f] {
    }
  }

  /** The evidence about every verified file, in manifest order. */
  method StagedFiles(sha: Content -> Digest, named: Digest -> J.Manifest, manifest: J.Manifest, hashes: map<int, Digest>, s: Files, pub: Publication,
                     ghost held: map<nat, Content>)
    returns (staged: seq<StagedFile>)
    requires Verified(sha, manifest, hashes, held) && Describes(named, manifest, hashes, pub) && StageThere(s, pub.transfer, held)
    ensures HandedOver(sha, s, pub, staged)
  {
    hide Proper, Verified, StageThere, FitsEntry, StillStaged, Evidence;
    staged := [];
    NoEvidence(sha, s);
    var i := 0;
    while i < |manifest.entries|
      invariant 0 <= i <= |manifest.entries|
      invariant |staged| == |FilesBelow(pub.manifest, i)| && (set f | f in staged :: f.entry) == FilesBelow(pub.manifest, i)
      invariant Evidence(sha, s, staged)
      invariant forall f :: f in staged ==> FitsEntry(pub.manifest, f) && StillStaged(s, pub.transfer, f)
    {
      SameShape(named, manifest, pub, i);
      OneMoreFile(pub.manifest, i);
      if manifest.entries[i].kind == J.File {
        StagedOne(sha, named, manifest, hashes, s, pub, held, i);
        var f := StagedFile(i, manifest.entries[i].size, hashes[i], s.stages[Slot(pub.transfer, i)]);
        OneMoreStaged(staged, f);
        EvidenceGrows(sha, s, pub, staged, f);
        staged := staged + [f];
      }
      i := i + 1;
    }
    assert FilesBelow(pub.manifest, i) == FileEntries(pub.manifest);
  }

  lemma NoEvidence(sha: Content -> Digest, s: Files)
    ensures Evidence(sha, s, [])
  {
  }

  lemma OneMoreStaged(staged: seq<StagedFile>, f: StagedFile)
    ensures (set g | g in staged + [f] :: g.entry) == (set g | g in staged :: g.entry) + {f.entry}
    ensures forall g :: g in staged + [f] <==> g in staged || g == f
  {
  }

  lemma SealedIs(stage: IncomingTransferStage)
    requires stage.Sealed()
    ensures stage.sealed && stage.phase == S.Finalizing
  {
  }

  lemma SealedVerified(stage: IncomingTransferStage)
    requires stage.FilesSealed(stage.hashes)
    ensures Verified(stage.sha, stage.manifest, stage.hashes, stage.disk.verified)
  {
    forall i: nat | S.IsFile(stage.manifest.entries, i)
      ensures i in stage.disk.verified && i in stage.hashes && |stage.disk.verified[i]| == stage.manifest.entries[i].size && stage.sha(stage.disk.verified[i]) == stage.hashes[i]
    {
    }
  }

  // ---------------------------------------------------------------- what can be taken up again

  /** The files of a stage, under whichever name each of them has. */
  function Contents(d: Disk): map<nat, Content> {
    map i | i in d.parts.Keys + d.verified.Keys :: R.FoundContent(d, i)
  }

  /** Every file on the disk is one of the manifest's. */
  predicate FilesOnly(m: seq<J.Identity>, d: Disk) {
    (forall i :: i in d.parts ==> S.IsFile(m, i)) && (forall i :: i in d.verified ==> S.IsFile(m, i))
  }

  /** What a crash may leave of a transfer that was being published: its journal still finalizing, with the
      publication on its way, or completed, with the publication done and the stage partly removed. */
  ghost predicate Resumable(sha: Content -> Digest, named: Digest -> J.Manifest, profile: nat, origin: nat, manifest: J.Manifest, pub: Publication,
                            found: Disk, s: Files) {
    && found.journal.Some? && found.journal.value.transfer == pub.transfer && found.journal.value.binding.profile == profile
    && Describes(named, manifest, S.Receipts(found.journal.value.entries), pub)
    && (if found.journal.value.state == J.Finalizing then
          Recoverable(sha, manifest.entries, found) && OnTrack(s, profile, origin, manifest, pub, Contents(found))
        else
          && found.journal.value.state == J.Completed && AtEnd(s, profile, pub) && FilesOnly(manifest.entries, found)
          && (!found.present ==> found.parts == map[] && found.verified == map[]))
  }

  /** Whatever a crash leaves of these disks can be taken up again with the store in this state. */
  ghost predicate DisksResume(sha: Content -> Digest, named: Digest -> J.Manifest, profile: nat, origin: nat, manifest: J.Manifest, pub: Publication,
                              ds: seq<Disk>, from: nat, s: Files) {
    forall k, d :: from <= k < |ds| && Crash(ds[k], d) ==> Resumable(sha, named, profile, origin, manifest, pub, d, s)
  }

  /** Whatever a crash leaves of this disk can be taken up again with the store in any of these states. */
  ghost predicate StoresResume(sha: Content -> Digest, named: Digest -> J.Manifest, profile: nat, origin: nat, manifest: J.Manifest, pub: Publication,
                               found: Disk, ps: seq<Files>, from: nat) {
    forall i, d :: from <= i < |ps| && Crash(found, d) ==> Resumable(sha, named, profile, origin, manifest, pub, d, ps[i])
  }

  ghost predicate TrackSince(profile: nat, origin: nat, manifest: J.Manifest, pub: Publication, held: map<nat, Content>, ps: seq<Files>, from: nat) {
    forall i :: from <= i < |ps| ==> OnTrack(ps[i], profile, origin, manifest, pub, held)
  }

  /** The publication has reached its end. */
  ghost predicate AtEnd(s: Files, profile: nat, pub: Publication) {
    profile in s.indexes && Receipted(s.indexes[profile], pub) && pub.transfer !in s.pending
  }

  /** The journal of a sealed stage has the hashes the stage computed. */
  lemma SealedReceipts(stage: IncomingTransferStage)
    requires stage.Sealed() && stage.FilesSealed(stage.hashes)
    ensures forall i: nat :: S.IsFile(stage.manifest.entries, i) ==>
      i in S.Receipts(stage.journal.value.entries) && S.Receipts(stage.journal.value.entries)[i] == stage.hashes[i]
  {
    var j := stage.journal.value;
    forall i: nat | S.IsFile(stage.manifest.entries, i)
      ensures i in S.Receipts(j.entries) && S.Receipts(j.entries)[i] == stage.hashes[i]
    {
      FileOfJournal(stage.sha, stage.manifest.entries, stage.disk, i);
    }
  }

  lemma FileOfJournal(sha: Content -> Digest, m: seq<J.Identity>, d: Disk, i: nat)
    requires Recoverable(sha, m, d) && S.IsFile(m, i) && i in d.verified
    ensures |d.journal.value.entries| == |m| && S.Receipts(d.journal.value.entries).Keys >= {i as int}
    ensures S.Receipts(d.journal.value.entries)[i] == sha(d.verified[i])
    ensures d.journal.value.entries[i].p.Received? && d.journal.value.entries[i].p.completed
  {
    var es := d.journal.value.entries;
    assert |J.Identities(es)| == |m|;
    EntryFacts(sha, m, d.journal.value, i);
    assert FileHeld(sha, es[i], d, i);
  }

  lemma SameEvidence(named: Digest -> J.Manifest, manifest: J.Manifest, a: map<int, Digest>, b: map<int, Digest>, pub: Publication)
    requires Describes(named, manifest, a, pub)
    requires forall i: nat :: S.IsFile(manifest.entries, i) ==> i in a && i in b && a[i] == b[i]
    ensures Describes(named, manifest, b, pub)
  {
    hide Proper;
    forall k | S.IsFile(manifest.entries, k) ensures k in b && pub.manifest.entries[k].expected == Some(b[k]) {
      var i: nat := k;
      assert S.IsFile(manifest.entries, i);
    }
  }

  /** A recoverable disk holds files of the manifest only. */
  lemma RecoverableFiles(sha: Content -> Digest, m: seq<J.Identity>, d: Disk)
    requires Recoverable(sha, m, d)
    ensures FilesOnly(m, d)
  {
    var es := d.journal.value.entries;
    assert |J.Identities(es)| == |es|;
    forall i | i in d.parts || i in d.verified ensures S.IsFile(m, i) {
      EntryFacts(sha, m, d.journal.value, i);
      assert FileHeld(sha, es[i], d, i);
    }
  }

  /** A crash leaves the very bytes of a sealed stage, under either name. */
  lemma CrashKeepsContents(stage: IncomingTransferStage, held: map<nat, Content>, d: Disk)
    requires stage.Sealed() && stage.FilesSealed(stage.hashes) && held == stage.disk.verified && Crash(stage.disk, d)
    ensures forall i :: i in Contents(d) ==> i in held && Contents(d)[i] == held[i]
  {
    RecoverableFiles(stage.sha, stage.manifest.entries, stage.disk);
    forall i | i in Contents(d) ensures i in held && Contents(d)[i] == held[i] {
      FileOfJournal(stage.sha, stage.manifest.entries, stage.disk, i);
      assert FileSurvives(stage.disk.journal.value.entries[i], stage.disk, d, i);
    }
  }

  lemma OnTrackLess(s: Files, p: nat, origin: nat, prior: J.Manifest, pub: Publication, held: map<nat, Content>, less: map<nat, Content>)
    requires OnTrack(s, p, origin, prior, pub, held) && forall i :: i in less ==> i in held && less[i] == held[i]
    ensures OnTrack(s, p, origin, prior, pub, less)
  {
    hide Begun, Reachable;
  }

  /** While the store works, a crash leaves a sealed stage and a publication on its way. */
  lemma CrashedWhilePublishing(stage: IncomingTransferStage, named: Digest -> J.Manifest, profile: nat, origin: nat, pub: Publication, s: Files, d: Disk)
    requires stage.Sealed() && stage.FilesSealed(stage.hashes) && Describes(named, stage.manifest, stage.hashes, pub)
    requires stage.journal.value.transfer == pub.transfer && stage.journal.value.binding.profile == profile && Crash(stage.disk, d)
    requires OnTrack(s, profile, origin, stage.manifest, pub, stage.disk.verified)
    ensures Resumable(stage.sha, named, profile, origin, stage.manifest, pub, d, s)
  {
    hide Describes, OnTrack, FilesHeld, NothingAhead;
    CrashIsRecoverable(stage.sha, stage.manifest.entries, stage.disk, d);
    SealedReceipts(stage);
    SameEvidence(named, stage.manifest, stage.hashes, S.Receipts(stage.journal.value.entries), pub);
    CrashKeepsContents(stage, stage.disk.verified, d);
    OnTrackLess(s, profile, origin, stage.manifest, pub, stage.disk.verified, Contents(d));
  }

  /** While the stage completes and goes, a crash leaves a publication that is done. */
  lemma CrashedWhileCompleting(sha: Content -> Digest, named: Digest -> J.Manifest, profile: nat, origin: nat, manifest: J.Manifest, pub: Publication,
                               sealed: Disk, point: Disk, s: Files, d: Disk)
    requires Recoverable(sha, manifest.entries, sealed) && sealed.present && sealed.journal.value.transfer == pub.transfer
    requires sealed.journal.value.binding.profile == profile
    requires Describes(named, manifest, S.Receipts(sealed.journal.value.entries), pub)
    requires S.Completing(sealed, point) && Crash(point, d) && AtEnd(s, profile, pub)
    ensures Resumable(sha, named, profile, origin, manifest, pub, d, s)
  {
    hide Describes, AtEnd;
    RecoverableFiles(sha, manifest.entries, sealed);
    if !d.present {
      assert d.parts == map[] && d.verified == map[];
    }
  }

  // ---------------------------------------------------------------- publishing

  datatype Outcome = Delivered | StageRefused(reply: Reply) | StoreRefused(error: StoreError)

  /** The limits leave the new row in place. */
  ghost predicate Spares(evict: seq<Row> -> set<nat>, item: nat) {
    forall rows :: item !in evict(rows)
  }

  lemma ReachableIsWelcome(x: Index, origin: nat, prior: J.Manifest, pub: Publication, evict: seq<Row> -> set<nat>)
    requires Reachable(x, origin, prior, pub) && Spares(evict, pub.manifest.item)
    ensures if pub.transfer in x.receipts then Receipted(x, pub) else Welcome(x, origin, prior, pub, evict)
  {
    if pub.transfer !in x.receipts {
      var k :| RowAt(x.rows, k, pub.manifest.item) && Waits(x.rows[k], origin, prior);
      assert pub.manifest.item !in evict(x.rows[k := Finalized(x.rows[k], pub.manifest)]);
    }
  }

  /** After publishing, the commit finds everything it asks for; only litter beside the pins can make it
      fail once the index is written. */
  lemma PublishedIsBound(sha: Content -> Digest, named: Digest -> J.Manifest, s: Files, pub: Publication)
    requires Inv(sha, named, s) && Protected(s, pub) && Begun(s, pub)
    ensures Bound(s, pub) && Held(s, pub.manifest)
    ensures MayRelease(s, pub) <==> s.pending[pub.transfer].litter == 0
  {
    ProtectedIsHeld(sha, named, s, pub);
  }

  lemma HandedOverIsPublishable(store: ObjectStore, pub: Publication, staged: seq<StagedFile>, prior: J.Manifest, hashes: map<int, Digest>)
    requires Describes(store.named, prior, hashes, pub) && HandedOver(store.sha, store.files, pub, staged) && Begun(store.files, pub)
    ensures store.Publishable(pub, staged) && Evidence(store.sha, store.files, staged)
  {
  }

  /** Publishes a sealed stage and completes it. The journal turns completed only when the index holds
      the receipt and the objects are there. While the store works the stage stays as it is, and while the
      stage completes and goes the store does: whatever a crash leaves of any of these pairs can be taken up
      again. Publishing fails, with the disk at its best, exactly when an interrupted installation of the
      receipt left its temporary file among the pins; and the first publication goes through a state in which
      a crash leaves just that. */
  method Publish(stage: IncomingTransferStage, cs: ClipboardStore, origin: nat, pub: Publication, evict: seq<Row> -> set<nat>, io: WriteResult, sio: Io)
    returns (r: Outcome)
    requires stage.Valid() && cs.Valid() && cs.store.sha == stage.sha && pub.transfer == stage.transfer && stage.binding.profile == cs.profile
    requires stage.Sealed() && stage.FilesSealed(stage.hashes)
    requires Describes(cs.store.named, stage.manifest, stage.hashes, pub)
    requires OnTrack(cs.store.files, cs.profile, origin, stage.manifest, pub, stage.disk.verified)
    modifies stage, cs.store
    ensures stage.Valid() && cs.Valid() && old(cs.store.points) <= cs.store.points && old(stage.points) <= stage.points
    ensures StoresResume(stage.sha, cs.store.named, cs.profile, origin, stage.manifest, pub, old(stage.disk), cs.store.points, |old(cs.store.points)|)
    ensures DisksResume(stage.sha, cs.store.named, cs.profile, origin, stage.manifest, pub, stage.points, |old(stage.points)|, cs.store.files)
    ensures stage.phase == S.Completed ==> AtEnd(cs.store.files, cs.profile, pub) && Held(cs.store.files, pub.manifest)
    ensures r.Delivered? ==> stage.phase == S.Completed && stage.disk == Disk(false, map[], map[], stage.disk.journal)
    ensures r.Delivered? ==> |old(stage.points)| < |stage.points| && stage.points[|old(stage.points)|] == old(stage.disk).(journal := stage.disk.journal)
    ensures r.Delivered? ==> S.Completing(old(stage.disk), stage.points[|old(stage.points)|])
    ensures r.Delivered? ==> exists row :: row in cs.TheIndex().rows && row.item == pub.manifest.item
    ensures (io == WriteResult.Written && Perfect(sio) && Spares(evict, pub.manifest.item) && old(stage.journal).Some? && old(stage.journal).value.generation < UINT64_MAX) ==>
      (r.Delivered? <==> old(Opened(cs.store.files, pub.transfer).litter == 0))
    ensures old(Opened(cs.store.files, pub.transfer).receipt.None?) ==>
      exists i :: |old(cs.store.points)| <= i < |cs.store.points| && Littered(cs.store.points[i], pub.transfer)
  {
    hide Littered, OnTrack, Inv, Held, Receipted, Begun, Describes, Verified, Welcome, Resumable, Crash, StoresResume, DisksResume, TrackSince, Bound,
      MayRelease, IncomingTransferStage.FilesSealed, IncomingTransferStage.Sealed, S.StageInv, S.Completing, Spares;
    ghost var held, ps, qs, sealed := stage.disk.verified, cs.store.points, stage.points, stage.disk;
    SealedVerified(stage);
    SealedIs(stage);
    PublishingResumes(stage, cs.store.named, cs.profile, origin, pub);
    DescribesProper(cs.store.named, stage.manifest, stage.hashes, pub);
    if Spares(evict, pub.manifest.item) {
      TrackIsWelcome(cs, origin, stage.manifest, pub, evict, held);
    }
    PublishFiles(stage.manifest, stage.hashes, cs, origin, pub, held);
    ghost var mid := cs.store.points;
    r := CommitAndComplete(stage, cs, origin, pub, evict, io, sio, held);
    TracksJoin(cs.profile, origin, stage.manifest, pub, held, ps, mid, cs.store.points);
    TracksResume(stage.sha, cs.store.named, cs.profile, origin, stage.manifest, pub, sealed, held, cs.store.points, |ps|);
    CompletingResumes(stage.sha, cs.store.named, cs.profile, origin, stage.manifest, pub, sealed, stage.points, |qs|, cs.store.files);
    if exists k :: |ps| <= k < |mid| && Littered(mid[k], pub.transfer) {
      StillLittered(ps, mid, cs.store.points, pub.transfer);
    }
  }

  /** The first half: the files of the stage become objects bound to the transfer. */
  method PublishFiles(manifest: J.Manifest, hashes: map<int, Digest>, cs: ClipboardStore, ghost origin: nat, pub: Publication, ghost held: map<nat, Content>)
    requires cs.Valid() && Verified(cs.store.sha, manifest, hashes, held) && Describes(cs.store.named, manifest, hashes, pub)
    requires OnTrack(cs.store.files, cs.profile, origin, manifest, pub, held)
    modifies cs.store
    ensures cs.Valid() && old(cs.store.points) <= cs.store.points && cs.TheIndex() == old(cs.TheIndex())
    ensures TrackSince(cs.profile, origin, manifest, pub, held, cs.store.points, |old(cs.store.points)|)
    ensures OnTrack(cs.store.files, cs.profile, origin, manifest, pub, held)
    ensures Bound(cs.store.files, pub) && Held(cs.store.files, pub.manifest)
    ensures MayRelease(cs.store.files, pub) <==> old(Opened(cs.store.files, pub.transfer).litter == 0)
    ensures old(Opened(cs.store.files, pub.transfer).receipt.None?) ==>
      exists i :: |old(cs.store.points)| <= i < |cs.store.points| && Littered(cs.store.points[i], pub.transfer)
  {
    hide OnTrack, Inv, Held, Protected, Along, Advances, Begun, Describes, Verified, HandedOver, Bound, MayRelease, Littered;
    ghost var s, ps := cs.store.files, cs.store.points;
    OnTrackIs(s, cs.profile, origin, manifest, pub, held);
    var staged := StagedFiles(cs.store.sha, cs.store.named, manifest, hashes, cs.store.files, pub, held);
    HandedOverIsPublishable(cs.store, pub, staged, manifest, hashes);
    var published := cs.store.PublishStagedTransfer(pub, staged);
    SameIndex(s, cs.store.files, pub);
    forall i | |ps| <= i < |cs.store.points| ensures OnTrack(cs.store.points[i], cs.profile, origin, manifest, pub, held) {
      AlongAt(cs.store.points, |ps|, s, pub, i);
      OnTrackAdvances(s, cs.store.points[i], cs.profile, origin, manifest, pub, held);
    }
    OnTrackAdvances(s, cs.store.files, cs.profile, origin, manifest, pub, held);
    OnTrackIs(cs.store.files, cs.profile, origin, manifest, pub, held);
    assert Inv(cs.store.sha, cs.store.named, cs.store.files);
    PublishedIsBound(cs.store.sha, cs.store.named, cs.store.files, pub);
  }

  lemma TrackIsWelcome(cs: ClipboardStore, origin: nat, prior: J.Manifest, pub: Publication, evict: seq<Row> -> set<nat>, held: map<nat, Content>)
    requires cs.Valid() && OnTrack(cs.store.files, cs.profile, origin, prior, pub, held) && Spares(evict, pub.manifest.item)
    ensures if pub.transfer in cs.TheIndex().receipts then Receipted(cs.TheIndex(), pub) else Welcome(cs.TheIndex(), origin, prior, pub, evict)
  {
    hide Receipted, Welcome, Begun, StageThere;
    ReachableIsWelcome(cs.TheIndex(), origin, prior, pub, evict);
  }

  lemma TracksJoin(profile: nat, origin: nat, manifest: J.Manifest, pub: Publication, held: map<nat, Content>, ps: seq<Files>, mid: seq<Files>, qs: seq<Files>)
    requires ps <= mid <= qs && TrackSince(profile, origin, manifest, pub, held, mid, |ps|) && TrackSince(profile, origin, manifest, pub, held, qs, |mid|)
    ensures TrackSince(profile, origin, manifest, pub, held, qs, |ps|)
  {
    hide OnTrack;
    forall i | |ps| <= i < |qs| ensures OnTrack(qs[i], profile, origin, manifest, pub, held) {
      if i < |mid| {
        assert qs[i] == mid[i];
      }
    }
  }

  /** What is on its way can be resumed with the sealed stage as it is. */
  lemma TracksResume(sha: Content -> Digest, named: Digest -> J.Manifest, profile: nat, origin: nat, manifest: J.Manifest, pub: Publication,
                     sealed: Disk, held: map<nat, Content>, ps: seq<Files>, from: nat)
    requires SealedResumes(sha, named, profile, origin, manifest, pub, sealed, held)
    requires TrackSince(profile, origin, manifest, pub, held, ps, from)
    ensures StoresResume(sha, named, profile, origin, manifest, pub, sealed, ps, from)
  {
    hide OnTrack, Resumable, Crash, S.Completing;
  }

  lemma CompletingResumes(sha: Content -> Digest, named: Digest -> J.Manifest, profile: nat, origin: nat, manifest: J.Manifest, pub: Publication,
                          sealed: Disk, ds: seq<Disk>, from: nat, s: Files)
    requires SealedResumes(sha, named, profile, origin, manifest, pub, sealed, sealed.verified)
    requires forall k :: from <= k < |ds| ==> S.Completing(sealed, ds[k])
    requires from < |ds| ==> AtEnd(s, profile, pub)
    ensures DisksResume(sha, named, profile, origin, manifest, pub, ds, from, s)
  {
    hide OnTrack, Resumable, Crash, S.Completing;
  }

  /** A crash with the sealed stage while the publication is on its way, or with a completing one once it is
      done, leaves something that can be resumed. */
  ghost predicate SealedResumes(sha: Content -> Digest, named: Digest -> J.Manifest, profile: nat, origin: nat, manifest: J.Manifest, pub: Publication,
                                sealed: Disk, held: map<nat, Content>) {
    && (forall s, d :: OnTrack(s, profile, origin, manifest, pub, held) && Crash(sealed, d) ==>
          Resumable(sha, named, profile, origin, manifest, pub, d, s))
    && (forall point, s, d :: S.Completing(sealed, point) && Crash(point, d) && AtEnd(s, profile, pub) ==>
          Resumable(sha, named, profile, origin, manifest, pub, d, s))
  }

  /** What a crash during publishing can meet, as a sealed stage goes into it. */
  lemma PublishingResumes(stage: IncomingTransferStage, named: Digest -> J.Manifest, profile: nat, origin: nat, pub: Publication)
    requires stage.Valid() && stage.Sealed() && stage.FilesSealed(stage.hashes) && Describes(named, stage.manifest, stage.hashes, pub)
    requires pub.transfer == stage.transfer && stage.binding.profile == profile
    ensures SealedResumes(stage.sha, named, profile, origin, stage.manifest, pub, stage.disk, stage.disk.verified)
  {
    hide OnTrack, Crash, Resumable, AtEnd, Describes, Recoverable, S.Completing;
    SealedDisk(stage);
    forall s, d | OnTrack(s, profile, origin, stage.manifest, pub, stage.disk.verified) && Crash(stage.disk, d)
      ensures Resumable(stage.sha, named, profile, origin, stage.manifest, pub, d, s)
    {
      CrashedWhilePublishing(stage, named, profile, origin, pub, s, d);
    }
    SealedReceipts(stage);
    SameEvidence(named, stage.manifest, stage.hashes, S.Receipts(stage.journal.value.entries), pub);
    forall point, s, d | S.Completing(stage.disk, point) && Crash(point, d) && AtEnd(s, profile, pub)
      ensures Resumable(stage.sha, named, profile, origin, stage.manifest, pub, d, s)
    {
      CrashedWhileCompleting(stage.sha, named, profile, origin, stage.manifest, pub, stage.disk, point, s, d);
    }
  }

  lemma SealedDisk(stage: IncomingTransferStage)
    requires stage.Valid() && stage.Sealed()
    ensures stage.journal.Some? && stage.disk.journal == stage.journal && Recoverable(stage.sha, stage.manifest.entries, stage.disk)
    ensures stage.journal.value.transfer == stage.transfer && stage.journal.value.binding == stage.binding && stage.disk.present
  {
    assert stage.Past();
  }

  lemma OnTrackIs(s: Files, p: nat, origin: nat, prior: J.Manifest, pub: Publication, held: map<nat, Content>)
    requires OnTrack(s, p, origin, prior, pub, held)
    ensures Begun(s, pub) && StageThere(s, pub.transfer, held) && p in s.indexes && Reachable(s.indexes[p], origin, prior, pub)
  {
  }

  lemma AlongAt(ps: seq<Files>, from: nat, s: Files, pub: Publication, i: nat)
    requires Along(ps, from, s, pub) && from <= i < |ps|
    ensures Advances(s, ps[i], pub)
  {
  }

  lemma DescribesProper(named: Digest -> J.Manifest, manifest: J.Manifest, hashes: map<int, Digest>, pub: Publication)
    requires Describes(named, manifest, hashes, pub)
    ensures Proper(named, manifest, pub)
  {
  }

  method CommitAndComplete(stage: IncomingTransferStage, cs: ClipboardStore, origin: nat, pub: Publication, evict: seq<Row> -> set<nat>, io: WriteResult, sio: Io,
                           ghost held: map<nat, Content>)
    returns (r: Outcome)
    requires stage.Valid() && cs.Valid() && stage.sealed && stage.phase == S.Finalizing && stage.Sealed()
    requires Proper(cs.store.named, stage.manifest, pub) && OnTrack(cs.store.files, cs.profile, origin, stage.manifest, pub, held)
    requires Bound(cs.store.files, pub) && Held(cs.store.files, pub.manifest)
    modifies stage, cs.store
    ensures stage.Valid() && cs.Valid() && old(cs.store.points) <= cs.store.points && old(stage.points) <= stage.points
    ensures TrackSince(cs.profile, origin, stage.manifest, pub, held, cs.store.points, |old(cs.store.points)|)
    ensures forall i :: |old(stage.points)| <= i < |stage.points| ==> S.Completing(old(stage.disk), stage.points[i])
    ensures |old(stage.points)| < |stage.points| || stage.phase == S.Completed ==> AtEnd(cs.store.files, cs.profile, pub) && Held(cs.store.files, pub.manifest)
    ensures r.Delivered? ==> stage.phase == S.Completed && stage.disk == Disk(false, map[], map[], stage.disk.journal)
    ensures r.Delivered? ==> |old(stage.points)| < |stage.points| && stage.points[|old(stage.points)|] == old(stage.disk).(journal := stage.disk.journal)
    ensures r.Delivered? ==> exists row :: row in cs.TheIndex().rows && row.item == pub.manifest.item
    ensures (Perfect(sio) && old(stage.journal).Some? && old(stage.journal).value.generation < UINT64_MAX) ==>
      (r.Delivered? <==> old(MayRelease(cs.store.files, pub)
        && if pub.transfer in cs.TheIndex().receipts then Receipted(cs.TheIndex(), pub) else Welcome(cs.TheIndex(), origin, stage.manifest, pub, evict) && io == WriteResult.Written))
  {
    hide OnTrack, Inv, Held, Protected, Proper, Along, Advances, Receipted, Reachable, Begun, Welcome,
      IncomingTransferStage.Sealed, S.Core, S.Rest, S.Sound, S.StageInv, Recoverable, Releasable, S.Completing;
    ProperIs(cs.store.named, stage.manifest, pub);
    var committed := cs.CommitReceived(origin, stage.manifest, pub, evict, io, held);
    if committed.Err? {
      return StoreRefused(committed.error);
    }
    var verified := cs.VerifyReceived(pub);
    var reply := stage.CompletePublication(verified, sio);
    r := if reply.Fine? then Delivered else StageRefused(reply);
  }

  // ---------------------------------------------------------------- after a crash

  /** Nothing lies in the stage directory but verified files of the manifest. */
  predicate OnlyVerified(m: seq<J.Identity>, d: Disk) {
    d.parts == map[] && forall i :: i in d.verified ==> S.IsFile(m, i)
  }

  /** Takes up the removal of a stage whose journal is completed. It looks at the durable receipt first, and
      touches nothing when the directory holds anything but verified files. Every disk on the way is one the
      same call finishes. */
  method CleanupCompleted(manifest: J.Manifest, found: Disk, cs: ClipboardStore, pub: Publication) returns (r: Reply, left: Disk, ghost points: seq<Disk>)
    requires cs.Valid() && (found.journal.Some? ==> Describes(cs.store.named, manifest, S.Receipts(found.journal.value.entries), pub))
    ensures r.Fine? <==>
      && found.journal.Some? && found.journal.value.state == J.Completed && found.journal.value.binding.profile == cs.profile
      && Receipted(cs.TheIndex(), pub) && (found.present ==> OnlyVerified(manifest.entries, found))
    ensures !r.Fine? ==> left == found && points == []
    ensures (found.journal.Some? && found.journal.value.state == J.Completed && found.journal.value.binding.profile == cs.profile
             && Receipted(cs.TheIndex(), pub) && found.present && !OnlyVerified(manifest.entries, found)) ==> r == StreamError(IncomingStage.CorruptPartial)
    ensures left == if points != [] then points[|points| - 1] else found
    ensures r.Fine? ==> !left.present && left.journal == found.journal && (found.present ==> left.parts == map[] && left.verified == map[])
    ensures r.Fine? && !found.present ==> left == found
    ensures forall p :: p in points ==> Removing(found, p) && (p.present ==> OnlyVerified(manifest.entries, p))
  {
    hide Describes, Receipted, Inv, Held, Removing;
    left, points := found, [];
    if found.journal.None? {
      return JournalError(J.NotFound), left, points;
    }
    if found.journal.value.state != J.Completed || found.journal.value.binding.profile != cs.profile {
      return StreamError(PublicationIncomplete), left, points;
    }
    DescribesFinished(cs.store.named, manifest, S.Receipts(found.journal.value.entries), pub);
    var held := cs.VerifyReceived(pub);
    if !held {
      return StreamError(PublicationIncomplete), left, points;
    }
    if !found.present {
      return Fine, left, points;
    }
    if found.parts != map[] || !(forall i :: i in found.verified ==> S.IsFile(manifest.entries, i)) {
      return StreamError(IncomingStage.CorruptPartial), left, points;
    }
    left, points := RemoveVerified(manifest.entries, found);
    r := Fine;
  }

  /** One file is gone, or the directory once it is empty. */
  ghost predicate OneLess(a: Disk, b: Disk) {
    if a.verified == map[] then b == Disk(false, map[], map[], a.journal)
    else exists i :: i in a.verified && b == a.(verified := a.verified - {i})
  }

  ghost predicate StepAt(found: Disk, points: seq<Disk>, k: int)
    requires 0 <= k < |points|
  {
    OneLess(if k == 0 then found else points[k - 1], points[k])
  }

  ghost predicate OneByOne(found: Disk, points: seq<Disk>) {
    forall k :: 0 <= k < |points| ==> StepAt(found, points, k)
  }

  lemma NoneYet(found: Disk)
    ensures OneByOne(found, [])
  {
  }

  lemma OneMore(found: Disk, points: seq<Disk>, d: Disk)
    requires OneByOne(found, points) && OneLess(if points == [] then found else points[|points| - 1], d)
    ensures OneByOne(found, points + [d])
  {
    hide OneLess;
    var all := points + [d];
    forall k | 0 <= k < |all| ensures StepAt(found, all, k) {
      if k < |points| {
        assert StepAt(found, points, k) && all[k] == points[k] && (k > 0 ==> all[k - 1] == points[k - 1]);
      }
    }
  }

  lemma FoundRemains(found: Disk)
    ensures Removing(found, found)
  {
  }

  lemma OneFileLess(m: seq<J.Identity>, found: Disk, d: Disk, i: nat)
    requires Removing(found, d) && d.present && OnlyVerified(m, d) && i in d.verified
    ensures var e := d.(verified := d.verified - {i}); OneLess(d, e) && Removing(found, e) && OnlyVerified(m, e)
  {
  }

  lemma DirectoryLess(m: seq<J.Identity>, found: Disk, d: Disk)
    requires Removing(found, d) && d.present && OnlyVerified(m, d) && d.verified == map[]
    ensures var e := Disk(false, map[], map[], found.journal); OneLess(d, e) && Removing(found, e)
  {
  }

  /** The removal itself, one file after the other. */
  method RemoveVerified(m: seq<J.Identity>, found: Disk) returns (left: Disk, ghost points: seq<Disk>)
    requires found.present && OnlyVerified(m, found)
    ensures left == Disk(false, map[], map[], found.journal) && points != [] && points[|points| - 1] == left
    ensures forall p :: p in points ==> Removing(found, p) && (p.present ==> OnlyVerified(m, p))
    ensures OneByOne(found, points)
  {
    hide OneLess, Removing, OnlyVerified, OneByOne;
    left, points := found, [];
    FoundRemains(found);
    assert OneByOne(found, points) by { NoneYet(found); }
    while left.verified != map[]
      invariant Removing(found, left) && left.present && OnlyVerified(m, left)
      invariant forall p :: p in points ==> Removing(found, p) && (p.present ==> OnlyVerified(m, p))
      invariant left == if points == [] then found else points[|points| - 1]
      invariant OneByOne(found, points)
      decreases |left.verified.Keys|
    {
      var i :| i in left.verified;
      assert (left.verified - {i}).Keys == left.verified.Keys - {i};
      OneFileLess(m, found, left, i);
      OneMore(found, points, left.(verified := left.verified - {i}));
      left := left.(verified := left.verified - {i});
      points := points + [left];
    }
    DirectoryLess(m, found, left);
    OneMore(found, points, Disk(false, map[], map[], found.journal));
    left := Disk(false, map[], map[], found.journal);
    points := points + [left];
  }

  lemma DescribesFinished(named: Digest -> J.Manifest, manifest: J.Manifest, hashes: map<int, Digest>, pub: Publication)
    requires Describes(named, manifest, hashes, pub)
    ensures Finished(pub.manifest) && named(pub.manifest.digest) == pub.manifest
  {
  }

  /** The history holds the item once. */
  ghost predicate SingleRow(rows: seq<Row>, item: nat) {
    && (exists k :: RowAt(rows, k, item))
    && (forall i, j :: RowAt(rows, i, item) && RowAt(rows, j, item) ==> i == j)
  }

  lemma AtEndIsSingle(sha: Content -> Digest, named: Digest -> J.Manifest, s: Files, profile: nat, pub: Publication)
    requires Inv(sha, named, s) && AtEnd(s, profile, pub)
    ensures SingleRow(s.indexes[profile].rows, pub.manifest.item) && Held(s, pub.manifest)
  {
    hide Linked, Truthful, Pinned, Held;
    assert Rows(s.indexes[profile]);
    ReceiptedIsHeld(sha, named, s, profile, pub);
    var k :| 0 <= k < |s.indexes[profile].rows| && RowAt(s.indexes[profile].rows, k, pub.manifest.item);
    OnlyRow(s.indexes[profile], k, pub.manifest.item);
  }

  /** Recovery from a crash anywhere in publishing: a journal that is still finalizing is sealed and published
      again, a completed one is cleaned up. It reaches the end the publication would have reached, with one
      row, its receipt, no links of the transfer and no stage, exactly when the receipt's installation left
      no litter and no completed stage got a file back under its part name. Wherever a crash strikes the
      recovery itself, while it reopens and seals, while it publishes or while the stage goes, what it
      leaves can be recovered in the same way. */
  method Recover(sha: Content -> Digest, manifest: J.Manifest, found: Disk, cs: ClipboardStore, origin: nat, pub: Publication,
                 evict: seq<Row> -> set<nat>, byteInterval: nat, timeInterval: real, timeouts: T.Timeouts, sio: Io)
    returns (done: bool, left: Disk, ghost reopening: seq<Disk>, ghost closing: seq<Disk>)
    requires cs.Valid() && cs.store.sha == sha && Resumable(sha, cs.store.named, cs.profile, origin, manifest, pub, found, cs.store.files)
    requires Perfect(sio) && Spares(evict, pub.manifest.item)
    requires found.journal.value.generation + |manifest.entries| + 3 < UINT64_MAX && found.journal.value.retryCount < UINT64_MAX
    modifies cs.store
    ensures cs.Valid() && old(cs.store.points) <= cs.store.points
    ensures done <==>
      && old(Opened(cs.store.files, pub.transfer).litter == 0)
      && (found.journal.value.state == J.Completed ==> found.parts == map[])
    ensures done ==> AtEnd(cs.store.files, cs.profile, pub) && SingleRow(cs.TheIndex().rows, pub.manifest.item) && Held(cs.store.files, pub.manifest)
    ensures done ==> left == Disk(false, map[], map[], left.journal)
    ensures found.journal.value.state == J.Finalizing ==> reopening != []
    ensures reopening == [] ==> cs.store.points == old(cs.store.points)
    ensures left == if closing != [] then closing[|closing| - 1] else if reopening != [] then reopening[|reopening| - 1] else found
    ensures DisksResume(sha, cs.store.named, cs.profile, origin, manifest, pub, reopening, 0, old(cs.store.files))
    ensures reopening != [] ==>
      StoresResume(sha, cs.store.named, cs.profile, origin, manifest, pub, reopening[|reopening| - 1], cs.store.points, |old(cs.store.points)|)
    ensures DisksResume(sha, cs.store.named, cs.profile, origin, manifest, pub, closing, 0, cs.store.files)
  {
    hide OnTrack, Inv, Held, Receipted, Resumable, SingleRow, AtEnd, DisksResume, StoresResume, Spares, Opened;
    HasJournal(sha, cs.store.named, cs.profile, origin, manifest, pub, found, cs.store.files);
    if found.journal.value.state == J.Finalizing {
      done, left, reopening, closing := RecoverFinalizing(sha, manifest, found, cs, origin, pub, evict, byteInterval, timeInterval, timeouts, sio);
    } else {
      reopening := [];
      NothingResumes(sha, cs.store.named, cs.profile, origin, manifest, pub, cs.store.files);
      done, left, closing := RecoverCompleted(sha, manifest, found, cs, origin, pub);
    }
    if done {
      EndsSingle(cs, pub);
    }
  }

  lemma HasJournal(sha: Content -> Digest, named: Digest -> J.Manifest, profile: nat, origin: nat, manifest: J.Manifest, pub: Publication, found: Disk, s: Files)
    requires Resumable(sha, named, profile, origin, manifest, pub, found, s)
    ensures found.journal.Some? && found.journal.value.state in {J.Finalizing, J.Completed}
  {
  }

  lemma EndsSingle(cs: ClipboardStore, pub: Publication)
    requires cs.Valid() && AtEnd(cs.store.files, cs.profile, pub)
    ensures SingleRow(cs.TheIndex().rows, pub.manifest.item) && Held(cs.store.files, pub.manifest)
  {
    hide Inv, SingleRow, AtEnd, Held;
    assert Inv(cs.store.sha, cs.store.named, cs.store.files);
    AtEndIsSingle(cs.store.sha, cs.store.named, cs.store.files, cs.profile, pub);
  }

  method RecoverFinalizing(sha: Content -> Digest, manifest: J.Manifest, found: Disk, cs: ClipboardStore, origin: nat, pub: Publication,
                           evict: seq<Row> -> set<nat>, byteInterval: nat, timeInterval: real, timeouts: T.Timeouts, sio: Io)
    returns (done: bool, left: Disk, ghost reopening: seq<Disk>, ghost closing: seq<Disk>)
    requires cs.Valid() && cs.store.sha == sha && Resumable(sha, cs.store.named, cs.profile, origin, manifest, pub, found, cs.store.files)
    requires Perfect(sio) && Spares(evict, pub.manifest.item) && found.journal.Some? && found.journal.value.state == J.Finalizing
    requires found.journal.value.generation + |manifest.entries| + 3 < UINT64_MAX && found.journal.value.retryCount < UINT64_MAX
    modifies cs.store
    ensures cs.Valid() && old(cs.store.points) <= cs.store.points
    ensures done <==> old(Opened(cs.store.files, pub.transfer).litter == 0)
    ensures done ==> AtEnd(cs.store.files, cs.profile, pub) && left == Disk(false, map[], map[], left.journal)
    ensures reopening != [] && left == if closing != [] then closing[|closing| - 1] else reopening[|reopening| - 1]
    ensures DisksResume(sha, cs.store.named, cs.profile, origin, manifest, pub, reopening, 0, old(cs.store.files))
    ensures StoresResume(sha, cs.store.named, cs.profile, origin, manifest, pub, reopening[|reopening| - 1], cs.store.points, |old(cs.store.points)|)
    ensures DisksResume(sha, cs.store.named, cs.profile, origin, manifest, pub, closing, 0, cs.store.files)
  {
    assert NoCollisions(sha);
    hide OnTrack, Inv, Held, Recoverable, Describes, Receipted, Resumable, NoCollisions, R.StillFinalizing, AtEnd, Spares, DisksResume, StoresResume,
      Littered, S.Completing, IncomingTransferStage.FilesSealed, IncomingTransferStage.Sealed, S.StageInv, Begun;
    ghost var s := cs.store.files;
    FinalizingParts(sha, cs.store.named, cs.profile, origin, manifest, pub, found, s);
    var stage, sealed := R.RecoverFinalizing(sha, manifest, found, byteInterval, timeInterval, timeouts, sio);
    reopening := stage.points;
    ReopeningResumes(sha, cs.store.named, cs.profile, origin, manifest, pub, found, reopening, s);
    RecoveredIsReady(stage, found, cs.store.named, cs.profile, origin, pub, s);
    var r := Publish(stage, cs, origin, pub, evict, WriteResult.Written, sio);
    closing := stage.points[|reopening|..];
    RestResumes(sha, cs.store.named, cs.profile, origin, manifest, pub, stage.points, |reopening|, cs.store.files);
    done, left := r.Delivered?, stage.disk;
    StageEnds(stage, reopening, closing);
  }

  lemma NothingResumes(sha: Content -> Digest, named: Digest -> J.Manifest, profile: nat, origin: nat, manifest: J.Manifest, pub: Publication, s: Files)
    ensures DisksResume(sha, named, profile, origin, manifest, pub, [], 0, s)
  {
  }

  lemma RestResumes(sha: Content -> Digest, named: Digest -> J.Manifest, profile: nat, origin: nat, manifest: J.Manifest, pub: Publication,
                    ds: seq<Disk>, from: nat, s: Files)
    requires from <= |ds| && DisksResume(sha, named, profile, origin, manifest, pub, ds, from, s)
    ensures DisksResume(sha, named, profile, origin, manifest, pub, ds[from..], 0, s)
  {
    hide Resumable, Crash;
    forall k, d | 0 <= k < |ds[from..]| && Crash(ds[from..][k], d) ensures Resumable(sha, named, profile, origin, manifest, pub, d, s) {
      assert ds[from..][k] == ds[from + k];
    }
  }

  lemma ReopeningResumes(sha: Content -> Digest, named: Digest -> J.Manifest, profile: nat, origin: nat, manifest: J.Manifest, pub: Publication,
                         found: Disk, ds: seq<Disk>, s: Files)
    requires Resumable(sha, named, profile, origin, manifest, pub, found, s) && found.journal.value.state == J.Finalizing && NoCollisions(sha)
    requires forall k :: 0 <= k < |ds| ==> R.StillFinalizing(sha, manifest.entries, found, ds[k])
    ensures DisksResume(sha, named, profile, origin, manifest, pub, ds, 0, s)
  {
    hide Resumable, Crash, R.StillFinalizing, NoCollisions;
    forall k, d | 0 <= k < |ds| && Crash(ds[k], d) ensures Resumable(sha, named, profile, origin, manifest, pub, d, s) {
      StillResumable(sha, named, profile, origin, manifest, pub, found, ds[k], d, s);
    }
  }

  lemma StageEnds(stage: IncomingTransferStage, before: seq<Disk>, after: seq<Disk>)
    requires stage.Valid() && before <= stage.points && before != [] && after == stage.points[|before|..]
    ensures stage.disk == if after != [] then after[|after| - 1] else before[|before| - 1]
  {
    hide S.StageInv;
    assert stage.Past();
  }

  method RecoverCompleted(sha: Content -> Digest, manifest: J.Manifest, found: Disk, cs: ClipboardStore, origin: nat, pub: Publication)
    returns (done: bool, left: Disk, ghost closing: seq<Disk>)
    requires cs.Valid() && cs.store.sha == sha && Resumable(sha, cs.store.named, cs.profile, origin, manifest, pub, found, cs.store.files)
    requires found.journal.Some? && found.journal.value.state != J.Finalizing
    ensures found.journal.value.state == J.Completed && Opened(cs.store.files, pub.transfer).litter == 0
    ensures done <==> found.parts == map[]
    ensures AtEnd(cs.store.files, cs.profile, pub) && (done ==> left == Disk(false, map[], map[], left.journal))
    ensures left == if closing != [] then closing[|closing| - 1] else found
    ensures DisksResume(sha, cs.store.named, cs.profile, origin, manifest, pub, closing, 0, cs.store.files)
  {
    hide Inv, Held, Describes, Receipted, Resumable, Crash;
    CompletedParts(sha, cs.store.named, cs.profile, origin, manifest, pub, found, cs.store.files);
    var r;
    r, left, closing := CleanupCompleted(manifest, found, cs, pub);
    done := r.Fine?;
    forall k, d | 0 <= k < |closing| && Crash(closing[k], d)
      ensures Resumable(sha, cs.store.named, cs.profile, origin, manifest, pub, d, cs.store.files)
    {
      StillCompleted(sha, cs.store.named, cs.profile, origin, manifest, pub, found, closing[k], d, cs.store.files);
    }
  }

  /** A removal interrupted anywhere is one that can be taken up again. */
  lemma StillCompleted(sha: Content -> Digest, named: Digest -> J.Manifest, profile: nat, origin: nat, manifest: J.Manifest, pub: Publication,
                       found: Disk, p: Disk, d: Disk, s: Files)
    requires Resumable(sha, named, profile, origin, manifest, pub, found, s) && found.journal.value.state != J.Finalizing
    requires Removing(found, p) && Crash(p, d)
    ensures Resumable(sha, named, profile, origin, manifest, pub, d, s)
  {
    hide Describes, AtEnd, OnTrack;
    if !d.present {
      assert d.parts == map[] && d.verified == map[];
    }
  }

  /** What a crash leaves of a stage that is being recovered has the same files and the same evidence. */
  lemma StillResumable(sha: Content -> Digest, named: Digest -> J.Manifest, profile: nat, origin: nat, manifest: J.Manifest, pub: Publication,
                       found: Disk, p: Disk, d: Disk, s: Files)
    requires Resumable(sha, named, profile, origin, manifest, pub, found, s) && found.journal.value.state == J.Finalizing
    requires R.StillFinalizing(sha, manifest.entries, found, p) && Crash(p, d) && NoCollisions(sha)
    ensures Resumable(sha, named, profile, origin, manifest, pub, d, s)
  {
    hide Describes, OnTrack, Recoverable, Crash;
    var m := manifest.entries;
    CrashIsRecoverable(sha, m, p, d);
    R.SameJournal(p, d);
    forall i: nat | S.IsFile(m, i)
      ensures i in S.Receipts(found.journal.value.entries) && i in S.Receipts(d.journal.value.entries)
        && S.Receipts(found.journal.value.entries)[i] == S.Receipts(d.journal.value.entries)[i]
      ensures R.FoundContent(d, i) == R.FoundContent(found, i) && i in Contents(found)
    {
      KeptFile(sha, m, found, d, i);
    }
    SameEvidence(named, manifest, S.Receipts(found.journal.value.entries), S.Receipts(d.journal.value.entries), pub);
    RecoverableFiles(sha, m, d);
    forall i | i in Contents(d) ensures i in Contents(found) && Contents(d)[i] == Contents(found)[i] {
      assert S.IsFile(m, i);
    }
    OnTrackLess(s, profile, origin, manifest, pub, Contents(found), Contents(d));
  }

  lemma KeptFile(sha: Content -> Digest, m: seq<J.Identity>, found: Disk, d: Disk, i: nat)
    requires Recoverable(sha, m, found) && Recoverable(sha, m, d) && found.journal.value.state == J.Finalizing
    requires J.AllKept(found.journal.value, d.journal.value) && S.IsFile(m, i) && NoCollisions(sha)
    ensures i in S.Receipts(found.journal.value.entries) && i in S.Receipts(d.journal.value.entries)
    ensures S.Receipts(found.journal.value.entries)[i] == S.Receipts(d.journal.value.entries)[i]
    ensures R.FoundContent(d, i) == R.FoundContent(found, i) && i in Contents(found)
  {
    var es := found.journal.value.entries;
    assert |J.Identities(es)| == |m|;
    EntryFacts(sha, m, found.journal.value, i);
    EntryFacts(sha, m, d.journal.value, i);
    assert FileHeld(sha, es[i], found, i) && FileHeld(sha, d.journal.value.entries[i], d, i);
    S.SameHash(sha, m, found, d, i);
    assert J.Kept(es[i], d.journal.value.entries[i]);
  }

  /** The disk after a crash that undid the last rename of a file. */
  function Undone(d: Disk, i: nat): Disk
    requires i in d.verified
  {
    d.(parts := d.parts[i := d.verified[i]], verified := d.verified - {i})
  }

  /** How the removal of a completed stage can come to refuse for ever: a stage is published and completed, and
      a crash before its directory goes undoes the rename of one of its files. What that leaves is one of
      the states to be recovered; cleaning up finds a file under its part name and touches nothing. */
  method UndoneRename(stage: IncomingTransferStage, cs: ClipboardStore, origin: nat, pub: Publication, evict: seq<Row> -> set<nat>, sio: Io, i: nat)
    returns (r: Outcome, found: Disk, refused: Reply)
    requires stage.Valid() && cs.Valid() && cs.store.sha == stage.sha && pub.transfer == stage.transfer && stage.binding.profile == cs.profile
    requires stage.Sealed() && stage.FilesSealed(stage.hashes)
    requires Describes(cs.store.named, stage.manifest, stage.hashes, pub)
    requires OnTrack(cs.store.files, cs.profile, origin, stage.manifest, pub, stage.disk.verified)
    requires Perfect(sio) && Spares(evict, pub.manifest.item) && stage.journal.Some? && stage.journal.value.generation < UINT64_MAX
    requires Opened(cs.store.files, pub.transfer).litter == 0 && S.IsFile(stage.manifest.entries, i)
    modifies stage, cs.store
    ensures r.Delivered? && AtEnd(cs.store.files, cs.profile, pub)
    ensures exists k :: |old(stage.points)| <= k < |stage.points| && Crash(stage.points[k], found)
    ensures Resumable(stage.sha, cs.store.named, cs.profile, origin, stage.manifest, pub, found, cs.store.files)
    ensures found.journal.Some? && found.journal.value.state == J.Completed && found.parts != map[]
    ensures refused == StreamError(IncomingStage.CorruptPartial)
  {
    hide OnTrack, Inv, Held, Receipted, Begun, Describes, Resumable, Crash, Recoverable, AtEnd, NoCollisions, DisksResume, StoresResume, IncomingTransferStage.Sealed, S.StageInv, Littered;
    SealedDisk(stage);
    SealedFile(stage, i);
    var sealed := stage.disk;
    r := Publish(stage, cs, origin, pub, evict, WriteResult.Written, sio);
    ghost var k := |old(stage.points)|;
    var completed := sealed.(journal := stage.disk.journal);
    found := Undone(completed, i);
    UndoneIsCrash(stage.sha, stage.manifest.entries, sealed, completed, i);
    assert Crash(stage.points[k], found);
    ResumeAt(stage.sha, cs.store.named, cs.profile, origin, stage.manifest, pub, stage.points, k, k, found, cs.store.files);
    UndoneFacts(sealed, completed, i);
    CompletedParts(stage.sha, cs.store.named, cs.profile, origin, stage.manifest, pub, found, cs.store.files);
    AtEndIs(cs.store.files, cs.profile, pub);
    var left;
    ghost var points;
    refused, left, points := CleanupCompleted(stage.manifest, found, cs, pub);
  }

  lemma ResumeAt(sha: Content -> Digest, named: Digest -> J.Manifest, profile: nat, origin: nat, manifest: J.Manifest, pub: Publication,
                 ds: seq<Disk>, from: nat, k: nat, d: Disk, s: Files)
    requires DisksResume(sha, named, profile, origin, manifest, pub, ds, from, s) && from <= k < |ds| && Crash(ds[k], d)
    ensures Resumable(sha, named, profile, origin, manifest, pub, d, s)
  {
  }

  lemma SealedFile(stage: IncomingTransferStage, i: nat)
    requires stage.FilesSealed(stage.hashes) && S.IsFile(stage.manifest.entries, i)
    ensures i in stage.disk.verified
  {
  }

  lemma AtEndIs(s: Files, profile: nat, pub: Publication)
    requires AtEnd(s, profile, pub)
    ensures profile in s.indexes && Receipted(s.indexes[profile], pub)
  {
  }

  lemma UndoneFacts(sealed: Disk, completed: Disk, i: nat)
    requires S.Completing(sealed, completed) && sealed.present && completed == sealed.(journal := completed.journal) && i in completed.verified
    ensures var d := Undone(completed, i);
            d.present && d.journal.Some? && d.journal.value.state == J.Completed && d.journal.value.binding == sealed.journal.value.binding
            && i in d.parts && d.parts != map[]
  {
  }

  lemma UndoneIsCrash(sha: Content -> Digest, m: seq<J.Identity>, sealed: Disk, completed: Disk, i: nat)
    requires Recoverable(sha, m, sealed) && S.IsFile(m, i) && i in sealed.verified
    requires S.Completing(sealed, completed) && completed == sealed.(journal := completed.journal)
    ensures Crash(completed, Undone(completed, i))
  {
    var d := Undone(completed, i);
    var es := sealed.journal.value.entries;
    assert |J.Identities(es)| == |m|;
    forall k | 0 <= k < |es| && es[k].p.Received? ensures FileSurvives(es[k], completed, d, k) {
      EntryFacts(sha, m, sealed.journal.value, k);
      assert FileHeld(sha, es[k], sealed, k);
      if k == i {
        assert es[k].p.completed;
      }
    }
  }

  lemma FinalizingParts(sha: Content -> Digest, named: Digest -> J.Manifest, profile: nat, origin: nat, manifest: J.Manifest, pub: Publication, found: Disk, s: Files)
    requires Resumable(sha, named, profile, origin, manifest, pub, found, s) && found.journal.value.state == J.Finalizing
    ensures Recoverable(sha, manifest.entries, found) && OnTrack(s, profile, origin, manifest, pub, Contents(found))
    ensures Describes(named, manifest, S.Receipts(found.journal.value.entries), pub) && found.journal.value.transfer == pub.transfer
    ensures found.journal.value.binding.profile == profile
  {
  }

  lemma CompletedParts(sha: Content -> Digest, named: Digest -> J.Manifest, profile: nat, origin: nat, manifest: J.Manifest, pub: Publication, found: Disk, s: Files)
    requires Resumable(sha, named, profile, origin, manifest, pub, found, s) && found.journal.value.state != J.Finalizing
    ensures found.journal.Some? && found.journal.value.state == J.Completed && found.journal.value.binding.profile == profile && AtEnd(s, profile, pub)
    ensures Describes(named, manifest, S.Receipts(found.journal.value.entries), pub)
    ensures OnlyVerified(manifest.entries, found) <==> found.parts == map[]
    ensures !found.present ==> found.parts == map[] && found.verified == map[]
    ensures Opened(s, pub.transfer).litter == 0
  {
  }

  /** A stage recovered from what a crash left is one that can be published, with the same publication. */
  lemma RecoveredIsReady(stage: IncomingTransferStage, found: Disk, named: Digest -> J.Manifest, profile: nat, origin: nat, pub: Publication, s: Files)
    requires found.journal.Some? && stage.Sealed() && stage.FilesSealed(stage.hashes) && stage.FilesSealed(S.Receipts(found.journal.value.entries))
    requires forall i: nat :: S.IsFile(stage.manifest.entries, i) ==> i in stage.disk.verified && stage.disk.verified[i] == R.FoundContent(found, i)
    requires Recoverable(stage.sha, stage.manifest.entries, found) && found.journal.value.state == J.Finalizing
    requires Describes(named, stage.manifest, S.Receipts(found.journal.value.entries), pub)
    requires OnTrack(s, profile, origin, stage.manifest, pub, Contents(found))
    ensures Describes(named, stage.manifest, stage.hashes, pub)
    ensures OnTrack(s, profile, origin, stage.manifest, pub, stage.disk.verified)
  {
    hide Describes, OnTrack;
    var m := stage.manifest.entries;
    forall i: nat | S.IsFile(m, i)
      ensures i in stage.hashes && i in S.Receipts(found.journal.value.entries) && S.Receipts(found.journal.value.entries)[i] == stage.hashes[i]
    {
    }
    SameEvidence(named, stage.manifest, S.Receipts(found.journal.value.entries), stage.hashes, pub);
    RecoverableFiles(stage.sha, m, stage.disk);
    forall i | i in stage.disk.verified ensures i in Contents(found) && Contents(found)[i] == stage.disk.verified[i] {
      CompleteIsThere(stage.sha, m, found, i);
    }
    OnTrackLess(s, profile, origin, stage.manifest, pub, Contents(found), stage.disk.verified);
  }

  lemma CompleteIsThere(sha: Content -> Digest, m: seq<J.Identity>, found: Disk, i: nat)
    requires Recoverable(sha, m, found) && found.journal.value.state == J.Finalizing && S.IsFile(m, i)
    ensures i in found.parts || i in found.verified
  {
    var es := found.journal.value.entries;
    assert |J.Identities(es)| == |m|;
    EntryFacts(sha, m, found.journal.value, i);
    assert FileHeld(sha, es[i], found, i);
  }
}
