/** The files the stores of all profiles share: names, the inodes behind them and the profile indexes,
    with the invariant that everything deliverable or pinned is there. */
module ObjectFiles {
  import opened Common
  import opened Staging
  import J = ResumeJournal

  type Inode = nat

  /** A file of payload bytes, or the canonical text of one manifest. */
  datatype Blob = Data(bytes: Content) | Text(manifest: J.Manifest)

  /** What binds a transfer to the manifest published for it. */
  datatype Receipt = Receipt(transfer: TransferId, provisional: Digest, manifest: Digest, item: nat, revision: nat)

  /** The directory of a transfer's hard links. Litter is what an interrupted installation of the
      receipt leaves behind: its temporary files. */
  datatype Pending = Pending(receipt: Option<Receipt>, manifest: Option<Inode>, pins: map<Digest, Inode>, litter: nat)

  datatype Row = Row(item: nat, origin: nat, manifest: J.Manifest, published: bool, deliverable: bool, seqNo: nat, pinned: bool)

  datatype Index = Index(rows: seq<Row>, receipts: map<TransferId, Receipt>)

  /** A file of a receiving stage, under whichever of its two names it has there. */
  datatype Slot = Slot(transfer: TransferId, entry: nat)

  datatype Files = Files(
    next: Inode, blobs: map<Inode, Blob>, objects: map<Digest, Inode>, manifests: map<Digest, Inode>, temps: set<Inode>,
    pending: map<TransferId, Pending>, stages: map<Slot, Inode>, leases: map<nat, Inode>, indexes: map<nat, Index>)

  datatype Name =
    | ObjectName(digest: Digest) | ManifestName(digest: Digest) | Temp(inode: Inode) | Pin(transfer: TransferId, digest: Digest)
    | ManifestPin(transfer: TransferId) | StageName(slot: Slot) | LeaseName(lease: nat)

  /** The names of an inode; a link count is their number. */
  function Links(s: Files, i: Inode): set<Name> {
    (set d | d in s.objects && s.objects[d] == i :: ObjectName(d))
    + (set d | d in s.manifests && s.manifests[d] == i :: ManifestName(d))
    + (set k | k in s.temps && k == i :: Temp(k))
    + (set t, d | t in s.pending && d in s.pending[t].pins && s.pending[t].pins[d] == i :: Pin(t, d))
    + (set t | t in s.pending && s.pending[t].manifest == Some(i) :: ManifestPin(t))
    + (set p | p in s.stages && s.stages[p] == i :: StageName(p))
    + (set n | n in s.leases && s.leases[n] == i :: LeaseName(n))
  }

  /** SHA-256 has no collisions. */
  ghost predicate NoCollisions(sha: Content -> Digest) {
    forall a: Content, b: Content :: sha(a) == sha(b) ==> a == b
  }

  /** Every file of the manifest carries its hash. */
  predicate Finished(m: J.Manifest) {
    forall k :: 0 <= k < |m.entries| ==> (m.entries[k].kind == J.File <==> m.entries[k].expected.Some?)
  }

  function Hashes(m: J.Manifest): set<Digest> {
    set k | 0 <= k < |m.entries| && m.entries[k].expected.Some? :: m.entries[k].expected.value
  }

  /** The object a file entry names is there, with the recorded size. */
  predicate EntryHeld(s: Files, e: J.Identity) {
    && e.expected.Some? && e.expected.value in s.objects && s.objects[e.expected.value] in s.blobs
    && var b := s.blobs[s.objects[e.expected.value]];
    b.Data? && |b.bytes| == e.size
  }

  /** The manifest and every object it names are present. */
  predicate Held(s: Files, m: J.Manifest) {
    && m.digest in s.manifests && s.manifests[m.digest] in s.blobs && s.blobs[s.manifests[m.digest]] == Text(m)
    && forall k :: 0 <= k < |m.entries| && m.entries[k].kind == J.File ==> EntryHeld(s, m.entries[k])
  }

  // ---------------------------------------------------------------- the invariant

  /** Every name leads to an inode that was written. */
  ghost predicate Linked(s: Files) {
    && (forall i :: i in s.blobs ==> i < s.next)
    && (forall d :: d in s.objects ==> s.objects[d] in s.blobs)
    && (forall d :: d in s.manifests ==> s.manifests[d] in s.blobs)
    && (forall p :: p in s.stages ==> s.stages[p] in s.blobs)
  }

  /** An object is named by the hash of its bytes, a manifest by its digest. */
  ghost predicate Truthful(sha: Content -> Digest, named: Digest -> J.Manifest, s: Files)
    requires Linked(s)
  {
    && (forall d :: d in s.objects ==> s.blobs[s.objects[d]].Data? && sha(s.blobs[s.objects[d]].bytes) == d)
    && (forall d :: d in s.manifests ==> s.blobs[s.manifests[d]] == Text(named(d)) && named(d).digest == d)
  }

  /** A pin holds the very inode its object has, so the object cannot go while the pin is there. */
  predicate PinsHold(s: Files, p: Pending) {
    && (forall d :: d in p.pins ==> d in s.objects && s.objects[d] == p.pins[d])
    && (p.manifest.Some? ==>
      && p.manifest.value in s.blobs && s.blobs[p.manifest.value].Text?
      && var d := s.blobs[p.manifest.value].manifest.digest;
      d in s.manifests && s.manifests[d] == p.manifest.value)
  }

  ghost predicate Pinned(s: Files) {
    forall t :: t in s.pending ==> PinsHold(s, s.pending[t])
  }

  predicate Live(r: Row) {
    r.published && r.deliverable
  }

  /** Every deliverable row of every profile has its manifest and all its objects. */
  ghost predicate Deliverable(s: Files) {
    forall p, k :: p in s.indexes && 0 <= k < |s.indexes[p].rows| && Live(s.indexes[p].rows[k]) ==>
      Held(s, s.indexes[p].rows[k].manifest)
  }

  predicate HasItem(rows: seq<Row>, item: nat) {
    exists k :: 0 <= k < |rows| && rows[k].item == item
  }

  ghost predicate OneRowPerItem(rows: seq<Row>) {
    forall i, j :: 0 <= i < j < |rows| ==> rows[i].item != rows[j].item
  }

  /** One row per item, and every receipt belongs to a row. */
  ghost predicate Rows(x: Index) {
    && OneRowPerItem(x.rows)
    && (forall k :: 0 <= k < |x.rows| && x.rows[k].published ==> Finished(x.rows[k].manifest))
    && (forall t :: t in x.receipts ==> HasItem(x.rows, x.receipts[t].item))
  }

  ghost predicate Inv(sha: Content -> Digest, named: Digest -> J.Manifest, s: Files) {
    && Linked(s) && Truthful(sha, named, s) && Pinned(s) && Deliverable(s)
    && (forall p :: p in s.indexes ==> Rows(s.indexes[p]))
  }

  // ---------------------------------------------------------------- growing

  /** Nothing that was there is lost: new names may appear, old ones keep their inodes. */
  ghost predicate Grows(s: Files, u: Files) {
    && s.next <= u.next
    && (forall i :: i in s.blobs ==> i in u.blobs && u.blobs[i] == s.blobs[i])
    && (forall d :: d in s.objects ==> d in u.objects && u.objects[d] == s.objects[d])
    && (forall d :: d in s.manifests ==> d in u.manifests && u.manifests[d] == s.manifests[d])
  }

  lemma GrowsKeepsHeld(s: Files, u: Files, m: J.Manifest)
    requires Grows(s, u) && Held(s, m)
    ensures Held(u, m)
  {
    forall k | 0 <= k < |m.entries| && m.entries[k].kind == J.File ensures EntryHeld(u, m.entries[k]) {
      assert EntryHeld(s, m.entries[k]);
    }
  }

  /** A step that loses nothing and touches no index keeps the invariant when what it adds is right. */
  lemma GrowsKeepsInv(sha: Content -> Digest, named: Digest -> J.Manifest, s: Files, u: Files)
    requires Inv(sha, named, s) && Grows(s, u) && u.indexes == s.indexes
    requires Linked(u) && Truthful(sha, named, u)
    requires forall t :: t in u.pending ==> (t in s.pending && u.pending[t] == s.pending[t]) || PinsHold(u, u.pending[t])
    ensures Inv(sha, named, u)
  {
    forall p, k | p in u.indexes && 0 <= k < |u.indexes[p].rows| && Live(u.indexes[p].rows[k])
      ensures Held(u, u.indexes[p].rows[k].manifest)
    {
      GrowsKeepsHeld(s, u, u.indexes[p].rows[k].manifest);
    }
    forall t | t in u.pending ensures PinsHold(u, u.pending[t]) {
      if t in s.pending && u.pending[t] == s.pending[t] {
        assert PinsHold(s, s.pending[t]);
      }
    }
  }

  // ---------------------------------------------------------------- single steps

  function Written(s: Files, b: Blob): Files {
    s.(next := s.next + 1, blobs := s.blobs[s.next := b])
  }

  function WithPending(s: Files, t: TransferId, p: Pending): Files {
    s.(pending := s.pending[t := p])
  }

  function LinkedObject(s: Files, d: Digest, i: Inode): Files {
    s.(objects := s.objects[d := i])
  }

  /** The text of a manifest in a temporary file of its own. */
  function TextWritten(s: Files, m: J.Manifest): Files {
    Written(s, Text(m)).(temps := s.temps + {s.next})
  }

  lemma TextIsTemporary(s: Files, m: J.Manifest)
    ensures TextWritten(s, m).temps == s.temps + {s.next} && TextWritten(s, m).manifests == s.manifests
  {
  }

  function LinkedManifest(s: Files, d: Digest, i: Inode): Files {
    s.(manifests := s.manifests[d := i])
  }

  lemma WithPendingKeeps(sha: Content -> Digest, named: Digest -> J.Manifest, s: Files, t: TransferId, p: Pending)
    requires Inv(sha, named, s) && PinsHold(s, p)
    ensures Inv(sha, named, WithPending(s, t, p))
  {
    var u := WithPending(s, t, p);
    GrowsKeepsPins(s, u, p);
    GrowsKeepsInv(sha, named, s, u);
  }

  lemma LinkedObjectKeeps(sha: Content -> Digest, named: Digest -> J.Manifest, s: Files, d: Digest, i: Inode)
    requires Inv(sha, named, s) && d !in s.objects
    requires i in s.blobs && s.blobs[i].Data? && sha(s.blobs[i].bytes) == d
    ensures Inv(sha, named, LinkedObject(s, d, i))
  {
    GrowsKeepsInv(sha, named, s, LinkedObject(s, d, i));
  }

  lemma TextWrittenKeeps(sha: Content -> Digest, named: Digest -> J.Manifest, s: Files, m: J.Manifest)
    requires Inv(sha, named, s)
    ensures Inv(sha, named, TextWritten(s, m))
  {
    GrowsKeepsInv(sha, named, s, TextWritten(s, m));
  }

  lemma LinkedManifestKeeps(sha: Content -> Digest, named: Digest -> J.Manifest, s: Files, d: Digest, i: Inode)
    requires Inv(sha, named, s) && d !in s.manifests && named(d).digest == d
    requires i in s.blobs && s.blobs[i] == Text(named(d))
    ensures Inv(sha, named, LinkedManifest(s, d, i))
  {
    GrowsKeepsInv(sha, named, s, LinkedManifest(s, d, i));
  }

  lemma GrowsKeepsPins(s: Files, u: Files, p: Pending)
    requires Grows(s, u) && PinsHold(s, p)
    ensures PinsHold(u, p)
  {
  }

  // ---------------------------------------------------------------- what other threads may do meanwhile

  /** Steps taken without the root lock: a receiving stage gains or loses a verified file, a lease is
      hard-linked to an object or given back. */
  datatype Deed =
    | Arrive(slot: Slot, bytes: Content) | Leave(slot: Slot) | Lend(lease: nat, digest: Digest) | GiveBack(lease: nat)

  function WithStages(s: Files, stages: map<Slot, Inode>): Files {
    s.(stages := stages)
  }

  function WithLeases(s: Files, leases: map<nat, Inode>): Files {
    s.(leases := leases)
  }

  function Done(s: Files, a: Deed, owner: Option<TransferId>): Files {
    match a
    case Arrive(slot, bytes) =>
      if Some(slot.transfer) == owner || slot in s.stages then s
      else WithStages(Written(s, Data(bytes)), s.stages[slot := s.next])
    case Leave(slot) =>
      if Some(slot.transfer) == owner then s else WithStages(s, s.stages - {slot})
    case Lend(lease, digest) =>
      if lease in s.leases || digest !in s.objects then s else WithLeases(s, s.leases[lease := s.objects[digest]])
    case GiveBack(lease) =>
      WithLeases(s, s.leases - {lease})
  }

  /** What the holder of the root lock may rely on; the stage it works for is its own. */
  ghost predicate Meanwhile(s: Files, u: Files, owner: Option<TransferId>) {
    && Grows(s, u) && u.objects == s.objects && u.manifests == s.manifests && u.temps == s.temps
    && u.pending == s.pending && u.indexes == s.indexes
    && (forall p :: p in s.stages && Some(p.transfer) == owner ==> p in u.stages && u.stages[p] == s.stages[p])
    && (forall p :: p in u.stages && Some(p.transfer) == owner ==> p in s.stages)
  }

  /** Work for one transfer under the lock: nothing is lost, no index changes, and no other transfer's
      links do. */
  ghost predicate WorksFor(s: Files, u: Files, t: TransferId) {
    && Grows(s, u) && u.indexes == s.indexes
    && (forall o :: o in s.pending && o != t ==> o in u.pending && u.pending[o] == s.pending[o])
    && (forall o :: o in u.pending && o != t ==> o in s.pending)
    && (forall p :: p in s.stages && p.transfer == t ==> p in u.stages && u.stages[p] == s.stages[p])
    && (forall p :: p in u.stages && p.transfer == t ==> p in s.stages)
  }

  lemma DoneKeeps(sha: Content -> Digest, named: Digest -> J.Manifest, s: Files, a: Deed, owner: Option<TransferId>)
    requires Inv(sha, named, s)
    ensures Inv(sha, named, Done(s, a, owner)) && Meanwhile(s, Done(s, a, owner), owner)
  {
    hide Truthful, PinsHold, Deliverable, Rows, Links, Done;
    DoneMeanwhile(s, a, owner);
    ArrivalTruthful(sha, named, s, Done(s, a, owner));
    GrowsKeepsInv(sha, named, s, Done(s, a, owner));
  }

  /** What the others set out to do is done, unless the stage is the owner's, its place or the lease is
      taken, or the object is gone. */
  lemma DeedsHappen(s: Files, a: Deed, owner: Option<TransferId>)
    ensures var u := Done(s, a, owner); match a
      case Arrive(slot, bytes) => Some(slot.transfer) != owner && slot !in s.stages ==>
        slot in u.stages && u.stages[slot] in u.blobs && u.blobs[u.stages[slot]] == Data(bytes)
      case Leave(slot) => Some(slot.transfer) != owner ==> slot !in u.stages
      case Lend(lease, digest) => lease !in s.leases && digest in s.objects ==> lease in u.leases && u.leases[lease] == s.objects[digest]
      case GiveBack(lease) => lease !in u.leases
  {
  }

  lemma StagesMeanwhile(s: Files, u: Files, stages: map<Slot, Inode>, owner: Option<TransferId>)
    requires Linked(s) && Linked(u) && Meanwhile(s, u, owner)
    requires forall p :: p in stages ==> stages[p] in u.blobs
    requires forall p: Slot :: Some(p.transfer) == owner ==> (p in s.stages <==> p in stages)
    requires forall p :: p in stages && Some(p.transfer) == owner ==> stages[p] == s.stages[p]
    ensures Linked(WithStages(u, stages)) && Meanwhile(s, WithStages(u, stages), owner)
  {
  }

  lemma LeasesMeanwhile(s: Files, leases: map<nat, Inode>, owner: Option<TransferId>)
    requires Linked(s)
    ensures Linked(WithLeases(s, leases)) && Meanwhile(s, WithLeases(s, leases), owner)
  {
  }

  lemma WrittenMeanwhile(s: Files, b: Blob, owner: Option<TransferId>)
    requires Linked(s)
    ensures Linked(Written(s, b)) && Meanwhile(s, Written(s, b), owner) && s.next in Written(s, b).blobs
  {
  }

  lemma DoneMeanwhile(s: Files, a: Deed, owner: Option<TransferId>)
    requires Linked(s)
    ensures Linked(Done(s, a, owner)) && Meanwhile(s, Done(s, a, owner), owner)
  {
    hide WithStages, WithLeases, Written;
    match a
    case Arrive(slot, bytes) =>
      if Some(slot.transfer) != owner && slot !in s.stages {
        WrittenMeanwhile(s, Data(bytes), owner);
        assert Linked(s);
        StagesMeanwhile(s, Written(s, Data(bytes)), s.stages[slot := s.next], owner);
      }
    case Leave(slot) =>
      if Some(slot.transfer) != owner {
        StagesMeanwhile(s, s, s.stages - {slot}, owner);
      }
    case Lend(lease, digest) =>
      LeasesMeanwhile(s, if lease in s.leases || digest !in s.objects then s.leases else s.leases[lease := s.objects[digest]], owner);
    case GiveBack(lease) =>
      LeasesMeanwhile(s, s.leases - {lease}, owner);
  }

  lemma ArrivalTruthful(sha: Content -> Digest, named: Digest -> J.Manifest, s: Files, u: Files)
    requires Linked(s) && Truthful(sha, named, s) && Linked(u) && Grows(s, u) && u.objects == s.objects && u.manifests == s.manifests
    ensures Truthful(sha, named, u)
  {
  }

  // ---------------------------------------------------------------- taking names away

  /** Some deliverable row of some profile needs the object. */
  ghost predicate ObjectNeeded(s: Files, d: Digest) {
    exists p, k :: p in s.indexes && 0 <= k < |s.indexes[p].rows| && Live(s.indexes[p].rows[k]) && d in Hashes(s.indexes[p].rows[k].manifest)
  }

  ghost predicate ManifestNeeded(s: Files, d: Digest) {
    exists p, k :: p in s.indexes && 0 <= k < |s.indexes[p].rows| && Live(s.indexes[p].rows[k]) && s.indexes[p].rows[k].manifest.digest == d
  }

  ghost predicate ObjectPinned(s: Files, d: Digest) {
    exists t :: t in s.pending && d in s.pending[t].pins
  }

  ghost predicate ManifestPinned(s: Files, d: Digest)
    requires d in s.manifests
  {
    exists t :: t in s.pending && s.pending[t].manifest == Some(s.manifests[d])
  }

  function WithoutObject(s: Files, d: Digest): Files {
    s.(objects := s.objects - {d})
  }

  function WithoutManifest(s: Files, d: Digest): Files {
    s.(manifests := s.manifests - {d})
  }

  /** Unlinking an object is safe exactly when no deliverable row needs it and no transfer pins it. */
  lemma UnlinkObject(sha: Content -> Digest, named: Digest -> J.Manifest, s: Files, d: Digest)
    requires Inv(sha, named, s) && d in s.objects
    ensures Inv(sha, named, WithoutObject(s, d)) <==> !ObjectNeeded(s, d) && !ObjectPinned(s, d)
  {
    var u := WithoutObject(s, d);
    if ObjectNeeded(s, d) {
      var p, k :| p in s.indexes && 0 <= k < |s.indexes[p].rows| && Live(s.indexes[p].rows[k]) && d in Hashes(s.indexes[p].rows[k].manifest);
      var m := s.indexes[p].rows[k].manifest;
      assert Rows(s.indexes[p]);
      var e :| 0 <= e < |m.entries| && m.entries[e].expected == Some(d);
      assert !EntryHeld(u, m.entries[e]);
      assert !Held(u, m);
    } else if ObjectPinned(s, d) {
      var t :| t in s.pending && d in s.pending[t].pins;
      assert !PinsHold(u, u.pending[t]);
    } else {
      forall p, k | p in u.indexes && 0 <= k < |u.indexes[p].rows| && Live(u.indexes[p].rows[k])
        ensures Held(u, u.indexes[p].rows[k].manifest)
      {
        var m := u.indexes[p].rows[k].manifest;
        assert Held(s, m) && d !in Hashes(m);
        forall e | 0 <= e < |m.entries| && m.entries[e].kind == J.File ensures EntryHeld(u, m.entries[e]) {
          assert EntryHeld(s, m.entries[e]);
        }
      }
      forall t | t in u.pending ensures PinsHold(u, u.pending[t]) {
        assert PinsHold(s, s.pending[t]);
      }
      assert Linked(u);
    }
  }

  lemma UnlinkManifest(sha: Content -> Digest, named: Digest -> J.Manifest, s: Files, d: Digest)
    requires Inv(sha, named, s) && d in s.manifests
    ensures Inv(sha, named, WithoutManifest(s, d)) <==> !ManifestNeeded(s, d) && !ManifestPinned(s, d)
  {
    var u := WithoutManifest(s, d);
    if ManifestNeeded(s, d) {
      var p, k :| p in s.indexes && 0 <= k < |s.indexes[p].rows| && Live(s.indexes[p].rows[k]) && s.indexes[p].rows[k].manifest.digest == d;
      assert !Held(u, s.indexes[p].rows[k].manifest);
    } else if ManifestPinned(s, d) {
      var t :| t in s.pending && s.pending[t].manifest == Some(s.manifests[d]);
      assert PinsHold(s, s.pending[t]);
      assert !PinsHold(u, u.pending[t]);
    } else {
      forall p, k | p in u.indexes && 0 <= k < |u.indexes[p].rows| && Live(u.indexes[p].rows[k])
        ensures Held(u, u.indexes[p].rows[k].manifest)
      {
        var m := u.indexes[p].rows[k].manifest;
        assert Held(s, m);
        forall e | 0 <= e < |m.entries| && m.entries[e].kind == J.File ensures EntryHeld(u, m.entries[e]) {
          assert EntryHeld(s, m.entries[e]);
        }
      }
      forall t | t in u.pending ensures PinsHold(u, u.pending[t]) {
        assert PinsHold(s, s.pending[t]);
      }
      assert Linked(u);
    }
  }

  lemma TwoOf<T>(all: set<T>, a: T, b: T)
    requires a in all && b in all && a != b
    ensures |all| >= 2
  {
    assert |all - {a} - {b}| >= 0;
  }

  /** A pin is a second link, so what has a single link is not pinned. */
  lemma PinIsALink(sha: Content -> Digest, named: Digest -> J.Manifest, s: Files, d: Digest)
    requires Inv(sha, named, s)
    ensures d in s.objects && ObjectPinned(s, d) ==> |Links(s, s.objects[d])| >= 2
    ensures d in s.manifests && ManifestPinned(s, d) ==> |Links(s, s.manifests[d])| >= 2
  {
    if d in s.objects && ObjectPinned(s, d) {
      var t :| t in s.pending && d in s.pending[t].pins;
      assert PinsHold(s, s.pending[t]);
      TwoOf(Links(s, s.objects[d]), ObjectName(d), Pin(t, d));
    }
    if d in s.manifests && ManifestPinned(s, d) {
      var t :| t in s.pending && s.pending[t].manifest == Some(s.manifests[d]);
      TwoOf(Links(s, s.manifests[d]), ManifestName(d), ManifestPin(t));
    }
  }

  // ---------------------------------------------------------------- publications and their pins

  datatype Publication = Publication(transfer: TransferId, provisional: Digest, manifest: J.Manifest)

  function ReceiptOf(p: Publication): Receipt {
    Receipt(p.transfer, p.provisional, p.manifest.digest, p.manifest.item, p.manifest.revision)
  }

  predicate PinSized(s: Files, p: Pending, e: J.Identity) {
    && e.expected.Some? && e.expected.value in p.pins && p.pins[e.expected.value] in s.blobs
    && var b := s.blobs[p.pins[e.expected.value]];
    b.Data? && |b.bytes| == e.size
  }

  /** The transfer's own links hold its manifest and all its objects. */
  predicate Protected(s: Files, pub: Publication) {
    && pub.transfer in s.pending
    && var p := s.pending[pub.transfer];
    && p.receipt == Some(ReceiptOf(pub))
    && p.manifest.Some? && p.manifest.value in s.blobs && s.blobs[p.manifest.value] == Text(pub.manifest)
    && forall k :: 0 <= k < |pub.manifest.entries| && pub.manifest.entries[k].kind == J.File ==> PinSized(s, p, pub.manifest.entries[k])
  }

  /** What a published transfer pins can be delivered. */
  lemma ProtectedIsHeld(sha: Content -> Digest, named: Digest -> J.Manifest, s: Files, pub: Publication)
    requires Inv(sha, named, s) && Protected(s, pub)
    ensures Held(s, pub.manifest)
  {
    var p := s.pending[pub.transfer];
    var m := pub.manifest;
    assert PinsHold(s, p);
    forall k | 0 <= k < |m.entries| && m.entries[k].kind == J.File ensures EntryHeld(s, m.entries[k]) {
      assert PinSized(s, p, m.entries[k]);
    }
  }

  /** Steps that lose nothing and leave the transfer's own links alone keep its protection. */
  lemma ProtectedStays(s: Files, u: Files, pub: Publication)
    requires Protected(s, pub) && pub.transfer in u.pending && u.pending[pub.transfer] == s.pending[pub.transfer]
    requires forall i :: i in s.blobs ==> i in u.blobs && u.blobs[i] == s.blobs[i]
    ensures Protected(u, pub)
  {
    var m := pub.manifest;
    forall k | 0 <= k < |m.entries| && m.entries[k].kind == J.File ensures PinSized(u, u.pending[pub.transfer], m.entries[k]) {
      assert PinSized(s, s.pending[pub.transfer], m.entries[k]);
    }
  }

  function Opened(s: Files, t: TransferId): Pending {
    if t in s.pending then s.pending[t] else Pending(None, None, map[], 0)
  }

  /** All the links of the transfer, if any, belong to this publication. */
  predicate Begun(s: Files, pub: Publication) {
    pub.transfer in s.pending ==>
      && var p := s.pending[pub.transfer];
      && (p.receipt.Some? ==> p.receipt.value == ReceiptOf(pub))
      && (forall d :: d in p.pins ==> d in Hashes(pub.manifest))
      && (p.manifest.Some? ==> p.manifest.value in s.blobs && s.blobs[p.manifest.value] == Text(pub.manifest))
  }

  /** Work on a publication as seen from its start. */
  ghost predicate Advances(s: Files, u: Files, pub: Publication) {
    WorksFor(s, u, pub.transfer) && (Begun(s, pub) ==> Begun(u, pub))
  }

  /** All states from a position on are such work. */
  ghost predicate Along(ps: seq<Files>, from: nat, s: Files, pub: Publication) {
    from <= |ps| && forall i :: from <= i < |ps| ==> Advances(s, ps[i], pub)
  }

  lemma AdvancesTrans(s: Files, u: Files, v: Files, pub: Publication)
    ensures Advances(s, s, pub)
    ensures Advances(s, u, pub) && Advances(u, v, pub) ==> Advances(s, v, pub)
  {
  }

  lemma AlongExtends(ps: seq<Files>, qs: seq<Files>, from: nat, s: Files, u: Files, pub: Publication)
    requires ps <= qs && Along(ps, from, s, pub) && Advances(s, u, pub) && Along(qs, |ps|, u, pub)
    ensures Along(qs, from, s, pub)
  {
    hide Advances;
    forall i | from <= i < |qs| ensures Advances(s, qs[i], pub) {
      if i < |ps| {
        assert qs[i] == ps[i];
      } else {
        AdvancesTrans(s, u, qs[i], pub);
      }
    }
  }

  lemma MeanwhileAdvances(s: Files, u: Files, v: Files, pub: Publication)
    requires Advances(s, u, pub) && Meanwhile(u, v, Some(pub.transfer))
    ensures Advances(s, v, pub)
  {
  }

  lemma AttachAdvances(sha: Content -> Digest, named: Digest -> J.Manifest, s: Files, p: Pending, pub: Publication)
    requires Inv(sha, named, s) && PinsHold(s, p)
    requires Begun(s, pub) ==> Begun(WithPending(s, pub.transfer, p), pub)
    ensures Inv(sha, named, WithPending(s, pub.transfer, p)) && Advances(s, WithPending(s, pub.transfer, p), pub)
  {
    hide Inv;
    WithPendingKeeps(sha, named, s, pub.transfer, p);
  }

  lemma ObjectAdvances(sha: Content -> Digest, named: Digest -> J.Manifest, s: Files, d: Digest, i: Inode, pub: Publication)
    requires Inv(sha, named, s) && d !in s.objects
    requires i in s.blobs && s.blobs[i].Data? && sha(s.blobs[i].bytes) == d
    ensures Inv(sha, named, LinkedObject(s, d, i)) && Advances(s, LinkedObject(s, d, i), pub)
  {
    hide Inv;
    LinkedObjectKeeps(sha, named, s, d, i);
  }

  lemma TextAdvances(sha: Content -> Digest, named: Digest -> J.Manifest, s: Files, pub: Publication)
    requires Inv(sha, named, s)
    ensures Inv(sha, named, TextWritten(s, pub.manifest)) && Advances(s, TextWritten(s, pub.manifest), pub)
  {
    TextWrittenKeeps(sha, named, s, pub.manifest);
  }

  lemma ManifestAdvances(sha: Content -> Digest, named: Digest -> J.Manifest, s: Files, i: Inode, pub: Publication)
    requires Inv(sha, named, s) && pub.manifest.digest !in s.manifests && named(pub.manifest.digest) == pub.manifest
    requires i in s.blobs && s.blobs[i] == Text(pub.manifest)
    ensures Inv(sha, named, LinkedManifest(s, pub.manifest.digest, i)) && Advances(s, LinkedManifest(s, pub.manifest.digest, i), pub)
  {
    hide Inv;
    LinkedManifestKeeps(sha, named, s, pub.manifest.digest, i);
  }

  lemma TempAdvances(sha: Content -> Digest, named: Digest -> J.Manifest, s: Files, i: Inode, pub: Publication)
    requires Inv(sha, named, s)
    ensures Inv(sha, named, s.(temps := s.temps - {i})) && Advances(s, s.(temps := s.temps - {i}), pub)
  {
    GrowsKeepsInv(sha, named, s, s.(temps := s.temps - {i}));
  }

  /** The transfer's links are these now; objects and manifests are as they were. */
  ghost predicate Attached(s: Files, u: Files, p: Pending, pub: Publication) {
    && pub.transfer in u.pending && u.pending[pub.transfer] == p
    && u.objects == s.objects && u.manifests == s.manifests && Grows(s, u)
    && forall d :: d in s.pending && d != pub.transfer ==> d in u.pending && u.pending[d] == s.pending[d]
  }

  lemma MeanwhileAttached(s: Files, u: Files, p: Pending, pub: Publication)
    requires Meanwhile(WithPending(s, pub.transfer, p), u, Some(pub.transfer))
    ensures Attached(s, u, p, pub)
  {
  }

  lemma AttachedSelf(s: Files, pub: Publication)
    requires pub.transfer in s.pending
    ensures Attached(s, s, s.pending[pub.transfer], pub)
  {
  }

  lemma AttachedTrans(s: Files, u: Files, v: Files, p: Pending, q: Pending, pub: Publication)
    requires Attached(s, u, p, pub) && Attached(u, v, q, pub)
    ensures Attached(s, v, q, pub)
  {
  }

  lemma OpenedHolds(sha: Content -> Digest, named: Digest -> J.Manifest, s: Files, t: TransferId)
    requires Inv(sha, named, s)
    ensures PinsHold(s, Opened(s, t))
  {
  }

  lemma BegunWith(s: Files, p: Pending, pub: Publication)
    requires Begun(s, pub) ==> p.pins.Keys <= Opened(s, pub.transfer).pins.Keys + Hashes(pub.manifest)
    requires p.receipt == Opened(s, pub.transfer).receipt || p.receipt == Some(ReceiptOf(pub))
    requires p.manifest == Opened(s, pub.transfer).manifest || p.manifest.None? || (p.manifest.value in s.blobs && s.blobs[p.manifest.value] == Text(pub.manifest))
    ensures Begun(s, pub) ==> Begun(WithPending(s, pub.transfer, p), pub)
  {
  }

  /** The object is there with the right bytes, and the transfer pins its inode. */
  ghost predicate PinnedObject(sha: Content -> Digest, s: Files, t: TransferId, d: Digest, size: int) {
    && t in s.pending && d in s.pending[t].pins && s.pending[t].pins[d] in s.blobs
    && var b := s.blobs[s.pending[t].pins[d]];
    b.Data? && sha(b.bytes) == d && |b.bytes| == size
  }

  lemma PinHolds(sha: Content -> Digest, named: Digest -> J.Manifest, s: Files, t: TransferId, d: Digest, size: int)
    requires Inv(sha, named, s) && t in s.pending && d in s.objects && s.objects[d] in s.blobs
    requires s.blobs[s.objects[d]].Data? && |s.blobs[s.objects[d]].bytes| == size
    ensures var p := s.pending[t]; PinsHold(s, p.(pins := p.pins[d := s.objects[d]]))
    ensures d in s.pending[t].pins ==> s.pending[t].pins[d] == s.objects[d] && PinnedObject(sha, s, t, d, size)
  {
    assert PinsHold(s, s.pending[t]);
  }

  /** The files of a transfer's link directory. */
  datatype Child = ReceiptFile | ManifestFile | PinFile(digest: Digest)

  function Children(p: Pending): set<Child> {
    (if p.receipt.Some? then {ReceiptFile} else {})
    + (if p.manifest.Some? then {ManifestFile} else {})
    + (set d | d in p.pins :: PinFile(d))
  }

  function Without(p: Pending, c: Child): Pending {
    match c
    case ReceiptFile => p.(receipt := None)
    case ManifestFile => p.(manifest := None)
    case PinFile(d) => p.(pins := p.pins - {d})
  }

  lemma WithoutChild(s: Files, p: Pending, c: Child)
    requires c in Children(p)
    ensures Children(Without(p, c)) == Children(p) - {c}
    ensures PinsHold(s, p) ==> PinsHold(s, Without(p, c))
  {
  }

  lemma DroppedPendingKeeps(sha: Content -> Digest, named: Digest -> J.Manifest, s: Files, t: TransferId)
    requires Inv(sha, named, s)
    ensures Inv(sha, named, s.(pending := s.pending - {t}))
  {
    GrowsKeepsInv(sha, named, s, s.(pending := s.pending - {t}));
  }

  // ---------------------------------------------------------------- index documents

  function Kept(rows: seq<Row>, gone: set<nat>): (kept: seq<Row>)
    ensures forall r :: r in kept <==> r in rows && r.item !in gone
  {
    if rows == [] then []
    else
      var rest := Kept(rows[..|rows| - 1], gone);
      var last := rows[|rows| - 1];
      assert rows == rows[..|rows| - 1] + [last];
      if last.item in gone then rest else rest + [last]
  }

  /** Receipts are written only for the items that are still there. */
  function Document(rows: seq<Row>, receipts: map<TransferId, Receipt>): Index {
    Index(rows, map t | t in receipts && HasItem(rows, receipts[t].item) :: receipts[t])
  }

  lemma KeptOnePerItem(rows: seq<Row>, gone: set<nat>)
    requires OneRowPerItem(rows)
    ensures OneRowPerItem(Kept(rows, gone))
  {
    if rows != [] {
      KeptOnePerItem(rows[..|rows| - 1], gone);
      var rest := Kept(rows[..|rows| - 1], gone);
      forall r | r in rest ensures r.item != rows[|rows| - 1].item {
      }
    }
  }

  lemma SameFilesHeld(s: Files, u: Files, m: J.Manifest)
    requires u.blobs == s.blobs && u.objects == s.objects && u.manifests == s.manifests
    ensures Held(u, m) <==> Held(s, m)
  {
    assert forall e :: EntryHeld(u, e) <==> EntryHeld(s, e);
  }

  /** A rewritten index keeps the invariant exactly when its deliverable rows are held. */
  lemma SetIndexKeeps(sha: Content -> Digest, named: Digest -> J.Manifest, s: Files, p: nat, x: Index)
    requires Inv(sha, named, s) && Rows(x)
    ensures Inv(sha, named, s.(indexes := s.indexes[p := x])) <==> forall r :: r in x.rows && Live(r) ==> Held(s, r.manifest)
  {
    var u := s.(indexes := s.indexes[p := x]);
    if forall r :: r in x.rows && Live(r) ==> Held(s, r.manifest) {
      forall q, k | q in u.indexes && 0 <= k < |u.indexes[q].rows| && Live(u.indexes[q].rows[k])
        ensures Held(u, u.indexes[q].rows[k].manifest)
      {
        if q == p {
          assert x.rows[k] in x.rows;
        } else {
          assert Held(s, s.indexes[q].rows[k].manifest);
        }
        GrowsKeepsHeld(s, u, u.indexes[q].rows[k].manifest);
      }
      forall t | t in u.pending ensures PinsHold(u, u.pending[t]) {
        assert PinsHold(s, s.pending[t]);
      }
    } else {
      var r :| r in x.rows && Live(r) && !Held(s, r.manifest);
      var k :| 0 <= k < |x.rows| && x.rows[k] == r;
      SameFilesHeld(s, u, r.manifest);
      assert !Held(u, u.indexes[p].rows[k].manifest);
    }
  }
}
