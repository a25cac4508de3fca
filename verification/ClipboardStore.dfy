/** The history index of one profile: committing a published transfer to its row, retiring rows again,
    and what a receipt found in the index proves. */
module ClipboardStore {
  import opened Common
  import opened Staging
  import opened ObjectFiles
  import opened ObjectStore
  import J = ResumeJournal

  // ---------------------------------------------------------------- index documents

  /** The finalized manifest completes the provisional one: the same entries, every file with its hash,
      and a new revision unless all hashes were there already. */
  predicate Finalizes(prior: J.Manifest, m: J.Manifest) {
    if Finished(prior) then m == prior
    else
      && m.item == prior.item && m.revision == prior.revision + 1 && |m.entries| == |prior.entries| && Finished(m)
      && forall k :: 0 <= k < |m.entries| ==>
        && m.entries[k].(expected := prior.entries[k].expected) == prior.entries[k]
        && (prior.entries[k].expected.Some? ==> m.entries[k].expected == prior.entries[k].expected)
  }

  /** The row of the item. */
  predicate RowAt(rows: seq<Row>, k: int, item: nat) {
    0 <= k < |rows| && rows[k].item == item
  }

  /** The row a transfer was announced with, still waiting for its payload. */
  predicate Waits(r: Row, origin: nat, prior: J.Manifest) {
    r.manifest == prior && r.origin == origin && !r.published
  }

  function Finalized(r: Row, m: J.Manifest): Row {
    r.(manifest := m, published := true, deliverable := true)
  }

  /** The index as it is written when the payload of row k has been published. */
  function Committed(x: Index, k: nat, pub: Publication, gone: set<nat>): Index
    requires k < |x.rows|
  {
    Document(Kept(x.rows[k := Finalized(x.rows[k], pub.manifest)], gone), x.receipts[pub.transfer := ReceiptOf(pub)])
  }

  /** The receipt is in the index, with the item's only row, finalized and deliverable. */
  predicate Receipted(x: Index, pub: Publication) {
    && pub.transfer in x.receipts && x.receipts[pub.transfer] == ReceiptOf(pub)
    && (exists k :: 0 <= k < |x.rows| && RowAt(x.rows, k, pub.manifest.item))
    && forall k :: 0 <= k < |x.rows| && RowAt(x.rows, k, pub.manifest.item) ==> x.rows[k].manifest == pub.manifest && Live(x.rows[k])
  }

  /** The transfer can still reach its end: its row waits, or it got there already. */
  ghost predicate Reachable(x: Index, origin: nat, prior: J.Manifest, pub: Publication) {
    if pub.transfer in x.receipts then Receipted(x, pub)
    else exists k :: RowAt(x.rows, k, pub.manifest.item) && Waits(x.rows[k], origin, prior)
  }

  lemma CommittedRows(x: Index, k: nat, pub: Publication, gone: set<nat>)
    requires Rows(x) && RowAt(x.rows, k, pub.manifest.item) && Finished(pub.manifest)
    ensures Rows(Committed(x, k, pub, gone))
    ensures pub.manifest.item !in gone ==> Receipted(Committed(x, k, pub, gone), pub)
    ensures forall r :: r in Committed(x, k, pub, gone).rows ==> r in x.rows || r == Finalized(x.rows[k], pub.manifest)
  {
    var all := x.rows[k := Finalized(x.rows[k], pub.manifest)];
    KeptOnePerItem(all, gone);
    var kept := Kept(all, gone);
    forall r | r in all ensures r in x.rows || r == all[k] {
      var i :| 0 <= i < |all| && all[i] == r;
      if i != k {
        assert all[i] == x.rows[i];
      }
    }
    forall i | 0 <= i < |kept| && kept[i].published ensures Finished(kept[i].manifest) {
      assert kept[i] in kept;
    }
    if pub.manifest.item !in gone {
      assert all[k] in all;
      var j :| 0 <= j < |kept| && kept[j] == all[k];
      assert RowAt(kept, j, pub.manifest.item);
    }
  }

  /** A commit changes the item's row and nothing else of it than the payload; rows leave only by the
      limits, and the receipts of all remaining rows stay. */
  lemma CommittedMeans(x: Index, k: nat, pub: Publication, gone: set<nat>, r: Row)
    requires Rows(x) && RowAt(x.rows, k, pub.manifest.item)
    ensures var y := Committed(x, k, pub, gone);
            && (r.item != pub.manifest.item ==> (r in y.rows <==> r in x.rows && r.item !in gone))
            && (r.item == pub.manifest.item ==> (r in y.rows <==> r == Row(x.rows[k].item, x.rows[k].origin, pub.manifest, true, true, x.rows[k].seqNo, x.rows[k].pinned) && r.item !in gone))
            && forall t :: t != pub.transfer && t in x.receipts && x.receipts[t].item !in gone ==> t in y.receipts && y.receipts[t] == x.receipts[t]
  {
    var all := x.rows[k := Finalized(x.rows[k], pub.manifest)];
    var y := Committed(x, k, pub, gone);
    if r.item != pub.manifest.item {
      if r in all {
        var i :| 0 <= i < |all| && all[i] == r;
        assert x.rows[i] == r;
      }
      if r in x.rows {
        var i :| 0 <= i < |x.rows| && x.rows[i] == r;
        assert all[i] == r;
      }
    } else {
      assert all[k] in all;
      if r in all {
        var i :| 0 <= i < |all| && all[i] == r;
        assert i != k ==> x.rows[i].item == x.rows[k].item;
      }
    }
    forall t | t != pub.transfer && t in x.receipts && x.receipts[t].item !in gone ensures t in y.receipts {
      var i :| 0 <= i < |x.rows| && x.rows[i].item == x.receipts[t].item;
      assert all[i] in all;
      var j :| 0 <= j < |y.rows| && y.rows[j] == all[i];
    }
  }

  // ---------------------------------------------------------------- retiring

  function Retired(r: Row, gone: bool): Row {
    if gone && Live(r) then r.(deliverable := false) else r
  }

  function RetiredRows(rows: seq<Row>, identity: J.Manifest -> Digest, gone: set<Digest>): (out: seq<Row>)
    ensures |out| == |rows| && forall k :: 0 <= k < |rows| ==> out[k] == Retired(rows[k], identity(rows[k].manifest) in gone)
  {
    seq(|rows|, k requires 0 <= k < |rows| => Retired(rows[k], identity(rows[k].manifest) in gone))
  }

  /** The items whose deliverable rows are of a content that goes. */
  function Affected(rows: seq<Row>, identity: J.Manifest -> Digest, gone: set<Digest>): set<nat> {
    set k | 0 <= k < |rows| && Live(rows[k]) && identity(rows[k].manifest) in gone :: rows[k].item
  }

  function WithoutReceipts(receipts: map<TransferId, Receipt>, items: set<nat>): map<TransferId, Receipt> {
    map t | t in receipts && receipts[t].item !in items :: receipts[t]
  }

  function Evicted(x: Index, identity: J.Manifest -> Digest, gone: set<Digest>): Index {
    Document(RetiredRows(x.rows, identity, gone), WithoutReceipts(x.receipts, Affected(x.rows, identity, gone)))
  }

  /** The row is published, deliverable, and of a content that goes. */
  ghost predicate Goes(r: Row, identity: J.Manifest -> Digest, gone: set<Digest>) {
    r.published && r.deliverable && identity(r.manifest) in gone
  }

  /** The index y is x after some contents went: exactly the rows of them that were deliverable no longer
      are, every other row is as it was, and exactly the receipts of their items are dropped. */
  ghost predicate RetiredFrom(x: Index, y: Index, identity: J.Manifest -> Digest, gone: set<Digest>) {
    && |y.rows| == |x.rows|
    && (forall k :: 0 <= k < |x.rows| ==>
          y.rows[k] == if Goes(x.rows[k], identity, gone) then x.rows[k].(deliverable := false) else x.rows[k])
    && (forall t :: t in y.receipts <==>
          t in x.receipts && forall k :: 0 <= k < |x.rows| && x.rows[k].item == x.receipts[t].item ==> !Goes(x.rows[k], identity, gone))
    && (forall t :: t in y.receipts ==> y.receipts[t] == x.receipts[t])
  }

  lemma EvictedExactly(x: Index, identity: J.Manifest -> Digest, gone: set<Digest>)
    requires Rows(x)
    ensures RetiredFrom(x, Evicted(x, identity, gone), identity, gone)
    ensures forall i :: i in Affected(x.rows, identity, gone) <==>
      exists k :: 0 <= k < |x.rows| && x.rows[k].item == i && Goes(x.rows[k], identity, gone)
  {
    var y := Evicted(x, identity, gone);
    forall t | t in x.receipts ensures HasItem(y.rows, x.receipts[t].item) {
      var i :| 0 <= i < |x.rows| && x.rows[i].item == x.receipts[t].item;
      assert y.rows[i].item == x.rows[i].item;
    }
  }

  lemma EvictedRows(x: Index, identity: J.Manifest -> Digest, gone: set<Digest>)
    requires Rows(x)
    ensures Rows(Evicted(x, identity, gone))
    ensures forall r :: r in Evicted(x, identity, gone).rows && Live(r) ==> r in x.rows && identity(r.manifest) !in gone
  {
    var out := RetiredRows(x.rows, identity, gone);
    forall r | r in out && Live(r) ensures r in x.rows && identity(r.manifest) !in gone {
      var k :| 0 <= k < |out| && out[k] == r;
      assert out[k] == Retired(x.rows[k], identity(x.rows[k].manifest) in gone);
    }
  }

  /** No receipt survives for an item that was retired, so none vouches for data that may be gone. */
  lemma NoReceiptForRetired(x: Index, identity: J.Manifest -> Digest, gone: set<Digest>, t: TransferId)
    requires t in Evicted(x, identity, gone).receipts
    ensures Evicted(x, identity, gone).receipts[t] == x.receipts[t]
    ensures forall k :: 0 <= k < |x.rows| && x.rows[k].item == x.receipts[t].item && Live(x.rows[k]) ==> identity(x.rows[k].manifest) !in gone
  {
    assert forall k :: 0 <= k < |x.rows| && Live(x.rows[k]) && identity(x.rows[k].manifest) in gone ==> x.rows[k].item in Affected(x.rows, identity, gone);
  }

  /** The index y is x without some items: the other rows in their order, and exactly their receipts. */
  ghost predicate DeletedFrom(x: Index, y: Index, items: set<nat>) {
    && (forall r :: r in y.rows <==> r in x.rows && r.item !in items) && OrderKept(x.rows, y.rows, items)
    && (forall t :: t in y.receipts <==> t in x.receipts && x.receipts[t].item !in items)
    && (forall t :: t in y.receipts ==> y.receipts[t] == x.receipts[t])
  }

  lemma DeletedExactly(x: Index, items: set<nat>)
    requires Rows(x)
    ensures Rows(Document(Kept(x.rows, items), x.receipts))
    ensures DeletedFrom(x, Document(Kept(x.rows, items), x.receipts), items)
  {
    hide OrderKept;
    DeletedRows(x, items);
    var y := Document(Kept(x.rows, items), x.receipts);
    OrderIsKept(x.rows, items);
    forall t | t in x.receipts && x.receipts[t].item !in items ensures HasItem(y.rows, x.receipts[t].item) {
      var i :| 0 <= i < |x.rows| && x.rows[i].item == x.receipts[t].item;
      assert x.rows[i] in y.rows;
    }
  }

  ghost predicate OrderKept(rows: seq<Row>, out: seq<Row>, gone: set<nat>) {
    forall i, j :: 0 <= i < j < |rows| && rows[i].item !in gone && rows[j].item !in gone ==> Before(out, rows[i], rows[j])
  }

  lemma OrderIsKept(rows: seq<Row>, gone: set<nat>)
    ensures OrderKept(rows, Kept(rows, gone), gone)
  {
    hide Before;
    forall i, j | 0 <= i < j < |rows| && rows[i].item !in gone && rows[j].item !in gone
      ensures Before(Kept(rows, gone), rows[i], rows[j])
    {
      KeptInOrder(rows, gone, i, j);
    }
  }

  ghost predicate Before(rows: seq<Row>, a: Row, b: Row) {
    exists p, q :: 0 <= p < q < |rows| && rows[p] == a && rows[q] == b
  }

  lemma {:induction false} KeptInOrder(rows: seq<Row>, gone: set<nat>, i: nat, j: nat)
    requires i < j < |rows| && rows[i].item !in gone && rows[j].item !in gone
    ensures Before(Kept(rows, gone), rows[i], rows[j])
  {
    var n := |rows| - 1;
    var rest := Kept(rows[..n], gone);
    if j < n {
      KeptInOrder(rows[..n], gone, i, j);
      var p, q :| 0 <= p < q < |rest| && rest[p] == rows[i] && rest[q] == rows[j];
      assert Kept(rows, gone)[p] == rows[i] && Kept(rows, gone)[q] == rows[j];
    } else {
      assert rows[..n][i] in rest;
      var p :| 0 <= p < |rest| && rest[p] == rows[i];
      assert Kept(rows, gone)[p] == rows[i] && Kept(rows, gone)[|rest|] == rows[j];
    }
  }

  lemma DeletedRows(x: Index, items: set<nat>)
    requires Rows(x)
    ensures Rows(Document(Kept(x.rows, items), x.receipts))
  {
    KeptOnePerItem(x.rows, items);
    var kept := Kept(x.rows, items);
    forall i | 0 <= i < |kept| && kept[i].published ensures Finished(kept[i].manifest) {
      assert kept[i] in kept;
    }
  }

  lemma OnlyRow(x: Index, k: nat, item: nat)
    requires Rows(x) && RowAt(x.rows, k, item)
    ensures forall i :: RowAt(x.rows, i, item) ==> i == k
  {
  }

  lemma SameNeeds(s: Files, u: Files)
    requires u.indexes == s.indexes
    ensures forall d :: ObjectNeeded(u, d) <==> ObjectNeeded(s, d)
  {
  }

  // ---------------------------------------------------------------- loading and marking

  /** Loading an index keeps a published row deliverable only if what it names is there. */
  function Loaded(s: Files, rows: seq<Row>): (out: seq<Row>)
    ensures |out| == |rows| && forall k :: 0 <= k < |rows| ==> out[k] == if Live(rows[k]) && !Held(s, rows[k].manifest) then rows[k].(deliverable := false) else rows[k]
  {
    seq(|rows|, k requires 0 <= k < |rows| => if Live(rows[k]) && !Held(s, rows[k].manifest) then rows[k].(deliverable := false) else rows[k])
  }

  /** Loading never has to give a row up. */
  lemma LoadingLosesNothing(s: Files, p: nat)
    requires Deliverable(s) && p in s.indexes
    ensures Loaded(s, s.indexes[p].rows) == s.indexes[p].rows
  {
  }

  /** Marking a row available looks at no object: it keeps the invariant exactly when the row has no
      published payload or everything its manifest names happens to be there. */
  lemma MarkingAvailable(sha: Content -> Digest, named: Digest -> J.Manifest, s: Files, p: nat, k: nat)
    requires Inv(sha, named, s) && p in s.indexes && k < |s.indexes[p].rows|
    ensures var x := s.indexes[p];
            var marked := Index(x.rows[k := x.rows[k].(deliverable := true)], x.receipts);
            Inv(sha, named, s.(indexes := s.indexes[p := marked])) <==> !x.rows[k].published || Held(s, x.rows[k].manifest)
  {
    var x := s.indexes[p];
    var r := x.rows[k].(deliverable := true);
    var marked := Index(x.rows[k := r], x.receipts);
    assert Rows(x);
    MarkedRows(x, k, true);
    SetIndexKeeps(sha, named, s, p, marked);
    assert marked.rows[k] == r;
    if !x.rows[k].published || Held(s, x.rows[k].manifest) {
      forall q | q in marked.rows && Live(q) ensures Held(s, q.manifest) {
        var i :| 0 <= i < |marked.rows| && marked.rows[i] == q;
        if i != k {
          assert x.rows[i] == q;
        }
      }
    }
  }

  lemma MarkedRows(x: Index, k: nat, flag: bool)
    requires Rows(x) && k < |x.rows|
    ensures Rows(Index(x.rows[k := x.rows[k].(deliverable := flag)], x.receipts))
  {
    var rows := x.rows[k := x.rows[k].(deliverable := flag)];
    forall t | t in x.receipts ensures HasItem(rows, x.receipts[t].item) {
      var i :| 0 <= i < |x.rows| && x.rows[i].item == x.receipts[t].item;
      assert rows[i].item == x.rows[i].item;
    }
  }

  // ---------------------------------------------------------------- publications in an index

  /** The manifest file and every object are there with the right bytes. */
  predicate Intact(sha: Content -> Digest, s: Files, m: J.Manifest) {
    && Held(s, m)
    && forall k :: 0 <= k < |m.entries| && m.entries[k].kind == J.File ==> sha(s.blobs[s.objects[m.entries[k].expected.value]].bytes) == m.entries[k].expected.value
  }

  /** The name of an object vouches for its bytes. */
  lemma HeldIsIntact(sha: Content -> Digest, named: Digest -> J.Manifest, s: Files, m: J.Manifest)
    requires Inv(sha, named, s)
    ensures Intact(sha, s, m) <==> Held(s, m)
  {
    if Held(s, m) {
      forall k | 0 <= k < |m.entries| && m.entries[k].kind == J.File
        ensures sha(s.blobs[s.objects[m.entries[k].expected.value]].bytes) == m.entries[k].expected.value
      {
        assert EntryHeld(s, m.entries[k]);
      }
    }
  }

  /** A receipt in the index proves that everything it stands for can be delivered. */
  lemma ReceiptedIsHeld(sha: Content -> Digest, named: Digest -> J.Manifest, s: Files, p: nat, pub: Publication)
    requires Inv(sha, named, s) && p in s.indexes && Receipted(s.indexes[p], pub)
    ensures Held(s, pub.manifest) && Intact(sha, s, pub.manifest)
  {
    var x := s.indexes[p];
    var k :| 0 <= k < |x.rows| && RowAt(x.rows, k, pub.manifest.item);
    assert Held(s, x.rows[k].manifest);
    HeldIsIntact(sha, named, s, pub.manifest);
  }

  /** The transfer's directory carries the publication's receipt. */
  predicate Bound(s: Files, pub: Publication) {
    pub.transfer in s.pending && s.pending[pub.transfer].receipt == Some(ReceiptOf(pub))
  }

  predicate MayRelease(s: Files, pub: Publication) {
    pub.transfer in s.pending ==> Releasable(s.pending[pub.transfer], pub)
  }

  /** The publication is for the manifest it claims to finish. */
  predicate Proper(named: Digest -> J.Manifest, prior: J.Manifest, pub: Publication) {
    prior.digest == pub.provisional && named(pub.manifest.digest) == pub.manifest && Finalizes(prior, pub.manifest) && Finished(pub.manifest)
  }

  /** The finalized manifest is the announced one with the hashes filled in: the same entries, no hash that
      was there changed, every file hashed and nothing else, and a new revision exactly when one was missing. */
  ghost predicate Completes(prior: J.Manifest, m: J.Manifest) {
    && m.item == prior.item && |m.entries| == |prior.entries|
    && (forall k :: 0 <= k < |m.entries| ==> var e, f := prior.entries[k], m.entries[k];
          && f.index == e.index && f.kind == e.kind && f.size == e.size && f.fingerprint == e.fingerprint
          && (e.expected.Some? ==> f.expected == e.expected) && (f.kind == J.File <==> f.expected.Some?))
    && (if forall k :: 0 <= k < |prior.entries| && prior.entries[k].kind == J.File ==> prior.entries[k].expected.Some? then m == prior
        else m.revision == prior.revision + 1)
  }

  /** What must be there before the first commit of a publication: the announced row, not yet published, and
      the transfer's receipt beside its links. */
  ghost predicate AwaitsPayload(s: Files, p: nat, origin: nat, prior: J.Manifest, pub: Publication) {
    && p in s.indexes && pub.transfer in s.pending
    && s.pending[pub.transfer].receipt == Some(Receipt(pub.transfer, pub.provisional, pub.manifest.digest, pub.manifest.item, pub.manifest.revision))
    && exists k :: 0 <= k < |s.indexes[p].rows| && Announced(s.indexes[p].rows[k], origin, prior, pub)
  }

  ghost predicate Announced(r: Row, origin: nat, prior: J.Manifest, pub: Publication) {
    r.item == pub.manifest.item && r.manifest == prior && r.origin == origin && !r.published
  }

  lemma ProperCompletes(named: Digest -> J.Manifest, prior: J.Manifest, pub: Publication)
    ensures Proper(named, prior, pub) <==>
      prior.digest == pub.provisional && named(pub.manifest.digest) == pub.manifest && Completes(prior, pub.manifest)
  {
  }

  lemma WelcomeAwaits(s: Files, p: nat, origin: nat, prior: J.Manifest, pub: Publication, evict: seq<Row> -> set<nat>)
    requires p in s.indexes && Bound(s, pub) && Welcome(s.indexes[p], origin, prior, pub, evict)
    ensures AwaitsPayload(s, p, origin, prior, pub)
  {
    var k :| RowAt(s.indexes[p].rows, k, pub.manifest.item) && Waits(s.indexes[p].rows[k], origin, prior);
    assert Announced(s.indexes[p].rows[k], origin, prior, pub);
  }

  /** The row waits for this payload and the history limits leave it in place. */
  ghost predicate Welcome(x: Index, origin: nat, prior: J.Manifest, pub: Publication, evict: seq<Row> -> set<nat>) {
    exists k :: RowAt(x.rows, k, pub.manifest.item) && Waits(x.rows[k], origin, prior)
      && pub.manifest.item !in evict(x.rows[k := Finalized(x.rows[k], pub.manifest)])
  }

  /** The index after a commit of the item's row. */
  ghost predicate CommitsTo(x: Index, y: Index, pub: Publication, evict: seq<Row> -> set<nat>) {
    exists k :: RowAt(x.rows, k, pub.manifest.item) && y == Committed(x, k, pub, evict(x.rows[k := Finalized(x.rows[k], pub.manifest)]))
  }

  /** The verified files of the transfer's stage are there. */
  ghost predicate StageThere(s: Files, t: TransferId, held: map<nat, Content>) {
    forall i :: i in held ==> Slot(t, i) in s.stages && s.stages[Slot(t, i)] in s.blobs && s.blobs[s.stages[Slot(t, i)]] == Data(held[i])
  }

  /** Nothing that happened so far keeps the transfer from its end. */
  ghost predicate OnTrack(s: Files, p: nat, origin: nat, prior: J.Manifest, pub: Publication, held: map<nat, Content>) {
    Begun(s, pub) && StageThere(s, pub.transfer, held) && p in s.indexes && Reachable(s.indexes[p], origin, prior, pub)
  }

  lemma OnTrackMeanwhile(s: Files, u: Files, p: nat, origin: nat, prior: J.Manifest, pub: Publication, held: map<nat, Content>)
    requires OnTrack(s, p, origin, prior, pub, held) && Meanwhile(s, u, Some(pub.transfer))
    ensures OnTrack(u, p, origin, prior, pub, held)
  {
  }

  lemma OnTrackAdvances(s: Files, u: Files, p: nat, origin: nat, prior: J.Manifest, pub: Publication, held: map<nat, Content>)
    requires OnTrack(s, p, origin, prior, pub, held) && Advances(s, u, pub)
    ensures OnTrack(u, p, origin, prior, pub, held)
  {
  }

  lemma ProfileRows(sha: Content -> Digest, named: Digest -> J.Manifest, s: Files, p: nat)
    requires Inv(sha, named, s) && p in s.indexes
    ensures Deliverable(s) && Rows(s.indexes[p])
    ensures forall r :: r in s.indexes[p].rows && Live(r) ==> Held(s, r.manifest)
  {
  }

  lemma ProperIs(named: Digest -> J.Manifest, prior: J.Manifest, pub: Publication)
    requires Proper(named, prior, pub)
    ensures Finished(pub.manifest) && named(pub.manifest.digest) == pub.manifest
  {
  }

  lemma ReceiptedRow(x: Index, pub: Publication, k: nat)
    requires Receipted(x, pub)
    ensures exists i :: RowAt(x.rows, i, pub.manifest.item)
    ensures pub.transfer in x.receipts
  {
    var i :| 0 <= i < |x.rows| && RowAt(x.rows, i, pub.manifest.item);
  }

  lemma SameIndex(s: Files, u: Files, pub: Publication)
    requires Advances(s, u, pub)
    ensures u.indexes == s.indexes
  {
  }

  lemma NoneFound(rows: seq<Row>, x: Index, origin: nat, prior: J.Manifest, pub: Publication, evict: seq<Row> -> set<nat>)
    requires x.rows == rows && forall i :: !RowAt(rows, i, pub.manifest.item)
    ensures !Welcome(x, origin, prior, pub, evict)
  {
  }

  lemma OneFound(x: Index, k: nat, origin: nat, prior: J.Manifest, pub: Publication, evict: seq<Row> -> set<nat>)
    requires Rows(x) && RowAt(x.rows, k, pub.manifest.item)
    ensures Welcome(x, origin, prior, pub, evict) <==>
      (Waits(x.rows[k], origin, prior) && pub.manifest.item !in evict(x.rows[k := Finalized(x.rows[k], pub.manifest)]))
  {
    assert forall i :: RowAt(x.rows, i, pub.manifest.item) ==> i == k;
  }

  lemma ReceiptedReachable(s: Files, u: Files, p: nat, x: Index, origin: nat, prior: J.Manifest, pub: Publication, held: map<nat, Content>)
    requires Begun(s, pub) && StageThere(s, pub.transfer, held) && Receipted(x, pub) && p in s.indexes
    requires Meanwhile(s.(indexes := s.indexes[p := x]), u, Some(pub.transfer))
    ensures OnTrack(u, p, origin, prior, pub, held) && u.indexes == s.indexes[p := x] && u.pending == s.pending
  {
    assert pub.transfer in x.receipts;
  }

  // ---------------------------------------------------------------- the store of a profile

  class ClipboardStore {
    const store: ObjectStore
    const profile: nat
    /** The content identity of a finalized manifest. */
    const identity: J.Manifest -> Digest

    ghost predicate Valid()
      reads store
    {
      store.Valid() && profile in store.files.indexes
    }

    constructor (store: ObjectStore, profile: nat, identity: J.Manifest -> Digest)
      requires store.Valid() && profile in store.files.indexes
      ensures Valid() && this.store == store && this.profile == profile && this.identity == identity
    {
      this.store, this.profile, this.identity := store, profile, identity;
    }

    function TheIndex(): Index
      requires profile in store.files.indexes
      reads store
    {
      store.files.indexes[profile]
    }

    /** Replaces the index file in one step. */
    method Save(x: Index, io: WriteResult, owner: Option<TransferId>) returns (ok: bool)
      requires Valid() && Rows(x) && forall r :: r in x.rows && Live(r) ==> Held(store.files, r.manifest)
      modifies store
      ensures Valid() && old(store.points) <= store.points && ok == (io == WriteResult.Written)
      ensures var u := if io == FailedBefore then old(store.files) else old(store.files).(indexes := old(store.files).indexes[profile := x]);
              Meanwhile(u, store.files, owner) && store.Since(|old(store.points)|, u, owner)
    {
      hide Inv, Meanwhile, Rows, Held;
      ok := io == WriteResult.Written;
      if io == FailedBefore {
        ghost var was := store.files;
        store.Yield(owner);
        MeanwhileSame(was, store.files, owner);
      } else {
        assert Inv(store.sha, store.named, store.files);
        SetIndexKeeps(store.sha, store.named, store.files, profile, x);
        var u := store.files.(indexes := store.files.indexes[profile := x]);
        store.Step(u, owner);
        MeanwhileSame(u, store.files, owner);
      }
    }

    /** The first row of the item. */
    method FindRow(rows: seq<Row>, item: nat) returns (k: Option<nat>)
      ensures k.Some? ==> RowAt(rows, k.value, item)
      ensures k.None? ==> forall i :: !RowAt(rows, i, item)
    {
      var i := 0;
      while i < |rows|
        invariant 0 <= i <= |rows| && forall j :: 0 <= j < i ==> !RowAt(rows, j, item)
      {
        if rows[i].item == item {
          return Some(i);
        }
        i := i + 1;
      }
      return None;
    }

    /** The durable index, its receipt and the objects are looked at, never what a caller remembers. */
    method VerifyReceived(pub: Publication) returns (ok: bool)
      requires Valid()
      ensures ok <==> Finished(pub.manifest) && store.named(pub.manifest.digest) == pub.manifest && Receipted(TheIndex(), pub)
      ensures ok ==> Held(store.files, pub.manifest)
    {
      hide Inv, Held, Intact;
      assert Inv(store.sha, store.named, store.files);
      if !Finished(pub.manifest) || store.named(pub.manifest.digest) != pub.manifest || !Receipted(TheIndex(), pub) {
        return false;
      }
      ReceiptedIsHeld(store.sha, store.named, store.files, profile, pub);
      ok := Intact(store.sha, store.files, pub.manifest);
    }

    /** Turns the row of a received transfer into its published form and writes the receipt in the same
        index; a repetition finds the receipt. The transfer's own links go only afterwards. */
    method CommitReceived(origin: nat, prior: J.Manifest, pub: Publication, evict: seq<Row> -> set<nat>, io: WriteResult, ghost held: map<nat, Content>)
      returns (r: Result<Row, StoreError>)
      requires Valid()
      modifies store
      ensures Valid() && old(store.points) <= store.points
      ensures r.Ok? <==> old(
        && Proper(store.named, prior, pub) && MayRelease(store.files, pub)
        && if pub.transfer in TheIndex().receipts then Receipted(TheIndex(), pub)
           else Bound(store.files, pub) && Held(store.files, pub.manifest) && Welcome(TheIndex(), origin, prior, pub, evict) && io == WriteResult.Written)
      ensures r.Ok? ==> prior.digest == pub.provisional && store.named(pub.manifest.digest) == pub.manifest && Completes(prior, pub.manifest)
      ensures r.Ok? && old(pub.transfer !in TheIndex().receipts) ==> old(AwaitsPayload(store.files, profile, origin, prior, pub))
      ensures r.Ok? ==> Receipted(TheIndex(), pub) && pub.transfer !in store.files.pending
      ensures r.Ok? ==> r.value in TheIndex().rows && r.value.item == pub.manifest.item
      ensures old(pub.transfer in TheIndex().receipts) ==> TheIndex() == old(TheIndex())
      ensures TheIndex() == old(TheIndex()) || (io != FailedBefore && CommitsTo(old(TheIndex()), TheIndex(), pub, evict))
      ensures r.Ok? && old(pub.transfer !in TheIndex().receipts) ==> CommitsTo(old(TheIndex()), TheIndex(), pub, evict)
      ensures old(OnTrack(store.files, profile, origin, prior, pub, held)) ==>
        forall i :: |old(store.points)| <= i < |store.points| ==> OnTrack(store.points[i], profile, origin, prior, pub, held)
    {
      hide Inv, Held, Intact, Receipted, Reachable, Rows, Releasable, Begun, Meanwhile, Advances, Along, Proper, Welcome, Bound, Completes, AwaitsPayload;
      if !Proper(store.named, prior, pub) {
        return Err(InvalidValue);
      }
      ProperCompletes(store.named, prior, pub);
      assert Inv(store.sha, store.named, store.files);
      ProfileRows(store.sha, store.named, store.files, profile);
      LoadingLosesNothing(store.files, profile);
      var x := Index(Loaded(store.files, TheIndex().rows), TheIndex().receipts);
      if pub.transfer in x.receipts {
        r := Replay(origin, prior, pub, held);
        return;
      }
      HeldIsIntact(store.sha, store.named, store.files, pub.manifest);
      if !Bound(store.files, pub) || !Intact(store.sha, store.files, pub.manifest) {
        return Err(InvalidValue);
      }
      if Welcome(TheIndex(), origin, prior, pub, evict) {
        WelcomeAwaits(store.files, profile, origin, prior, pub, evict);
      }
      r := CommitFresh(origin, prior, pub, evict, io, held);
    }

    /** A repetition: the receipt and what it stands for are there, only links may be left. */
    method Replay(ghost origin: nat, ghost prior: J.Manifest, pub: Publication, ghost held: map<nat, Content>) returns (r: Result<Row, StoreError>)
      requires Valid() && pub.transfer in TheIndex().receipts && Proper(store.named, prior, pub)
      modifies store
      ensures Valid() && old(store.points) <= store.points && TheIndex() == old(TheIndex())
      ensures r.Ok? <==> old(Receipted(TheIndex(), pub) && MayRelease(store.files, pub))
      ensures r.Ok? ==> pub.transfer !in store.files.pending && r.value in TheIndex().rows && r.value.item == pub.manifest.item
      ensures old(OnTrack(store.files, profile, origin, prior, pub, held)) ==>
        forall i :: |old(store.points)| <= i < |store.points| ==> OnTrack(store.points[i], profile, origin, prior, pub, held)
    {
      hide Inv, Held, Intact, Receipted, Reachable, Rows, Releasable, Begun, Meanwhile, Advances, Along, Proper, OnTrack;
      ProperIs(store.named, prior, pub);
      var verified := VerifyReceived(pub);
      if !verified {
        return Err(InvalidValue);
      }
      ReceiptedRow(TheIndex(), pub, 0);
      var ok := Release(origin, prior, pub, held);
      if !ok {
        return Err(UnsafeStore);
      }
      var k := FindRow(TheIndex().rows, pub.manifest.item);
      r := Ok(TheIndex().rows[k.value]);
    }

    method Release(ghost origin: nat, ghost prior: J.Manifest, pub: Publication, ghost held: map<nat, Content>) returns (ok: bool)
      requires Valid()
      modifies store
      ensures Valid() && old(store.points) <= store.points && TheIndex() == old(TheIndex())
      ensures ok <==> old(MayRelease(store.files, pub))
      ensures ok ==> pub.transfer !in store.files.pending
      ensures old(OnTrack(store.files, profile, origin, prior, pub, held)) ==>
        forall i :: |old(store.points)| <= i < |store.points| ==> OnTrack(store.points[i], profile, origin, prior, pub, held)
    {
      hide Inv, Releasable, Advances, OnTrack;
      ghost var s, ps := store.files, store.points;
      AdvancesTrans(s, s, s, pub);
      ok := store.ReleaseCommittedPins(s, ps, pub);
      SameIndex(s, store.files, pub);
      if OnTrack(s, profile, origin, prior, pub, held) {
        forall i | |ps| <= i < |store.points| ensures OnTrack(store.points[i], profile, origin, prior, pub, held) {
          OnTrackAdvances(s, store.points[i], profile, origin, prior, pub, held);
        }
      }
    }

    method CommitFresh(origin: nat, prior: J.Manifest, pub: Publication, evict: seq<Row> -> set<nat>, io: WriteResult, ghost held: map<nat, Content>)
      returns (r: Result<Row, StoreError>)
      requires Valid() && Proper(store.named, prior, pub) && Held(store.files, pub.manifest) && pub.transfer !in TheIndex().receipts
      modifies store
      ensures Valid() && old(store.points) <= store.points
      ensures r.Ok? <==> old(MayRelease(store.files, pub) && Welcome(TheIndex(), origin, prior, pub, evict) && io == WriteResult.Written)
      ensures r.Ok? ==> Receipted(TheIndex(), pub) && pub.transfer !in store.files.pending
      ensures r.Ok? ==> r.value in TheIndex().rows && r.value.item == pub.manifest.item
      ensures TheIndex() == old(TheIndex()) || (io != FailedBefore && CommitsTo(old(TheIndex()), TheIndex(), pub, evict))
      ensures r.Ok? ==> CommitsTo(old(TheIndex()), TheIndex(), pub, evict)
      ensures old(OnTrack(store.files, profile, origin, prior, pub, held)) ==>
        forall i :: |old(store.points)| <= i < |store.points| ==> OnTrack(store.points[i], profile, origin, prior, pub, held)
    {
      hide Inv, Held, Intact, Receipted, Reachable, Rows, Releasable, Begun, Meanwhile, Advances, Along, Proper, OnTrack, Welcome, Committed;
      var x := TheIndex();
      var k := FindRow(x.rows, pub.manifest.item);
      if k.None? {
        NoneFound(x.rows, x, origin, prior, pub, evict);
        return Err(InvalidValue);
      }
      assert Inv(store.sha, store.named, store.files);
      ProfileRows(store.sha, store.named, store.files, profile);
      ProperIs(store.named, prior, pub);
      OneFound(x, k.value, origin, prior, pub, evict);
      if !Waits(x.rows[k.value], origin, prior) {
        return Err(InvalidValue);
      }
      var gone := evict(x.rows[k.value := Finalized(x.rows[k.value], pub.manifest)]);
      if pub.manifest.item in gone {
        return Err(InvalidValue);
      }
      CommittedRows(x, k.value, pub, gone);
      r := WriteCommitted(Committed(x, k.value, pub, gone), origin, prior, pub, io, held);
    }

    /** One index write, then the links go. A failure to remove them does not undo the write. */
    method WriteCommitted(x: Index, ghost origin: nat, ghost prior: J.Manifest, pub: Publication, io: WriteResult, ghost held: map<nat, Content>) returns (r: Result<Row, StoreError>)
      requires Valid() && Rows(x) && Receipted(x, pub) && forall q :: q in x.rows && Live(q) ==> Held(store.files, q.manifest)
      modifies store
      ensures Valid() && old(store.points) <= store.points
      ensures r.Ok? <==> old(MayRelease(store.files, pub)) && io == WriteResult.Written
      ensures r.Ok? ==> Receipted(TheIndex(), pub) && pub.transfer !in store.files.pending
      ensures r.Ok? ==> r.value in TheIndex().rows && r.value.item == pub.manifest.item
      ensures TheIndex() == if io == FailedBefore then old(TheIndex()) else x
      ensures old(OnTrack(store.files, profile, origin, prior, pub, held)) ==>
        forall i :: |old(store.points)| <= i < |store.points| ==> OnTrack(store.points[i], profile, origin, prior, pub, held)
    {
      hide Inv, Held, Intact, Receipted, Reachable, Rows, Releasable, Meanwhile, Advances, Along, OnTrack;
      ghost var s, ps := store.files, store.points;
      ghost var u := if io == FailedBefore then s else s.(indexes := s.indexes[profile := x]);
      var ok := Save(x, io, Some(pub.transfer));
      MeanwhileSame(u, store.files, Some(pub.transfer));
      if OnTrack(s, profile, origin, prior, pub, held) {
        Tracked(s, u, x, io, origin, prior, pub, held, |ps|);
      }
      if !ok {
        return Err(StoreIo);
      }
      ReceiptedRow(x, pub, 0);
      ghost var seen := store.points;
      var released := Release(origin, prior, pub, held);
      if !released {
        return Err(UnsafeStore);
      }
      var k := FindRow(TheIndex().rows, pub.manifest.item);
      r := Ok(TheIndex().rows[k.value]);
    }

    lemma Tracked(s: Files, u: Files, x: Index, io: WriteResult, origin: nat, prior: J.Manifest, pub: Publication, held: map<nat, Content>, from: nat)
      requires OnTrack(s, profile, origin, prior, pub, held) && Receipted(x, pub)
      requires u == if io == FailedBefore then s else s.(indexes := s.indexes[profile := x])
      requires store.Since(from, u, Some(pub.transfer)) && Meanwhile(u, store.files, Some(pub.transfer))
      ensures OnTrack(store.files, profile, origin, prior, pub, held)
      ensures forall i :: from <= i < |store.points| ==> OnTrack(store.points[i], profile, origin, prior, pub, held)
    {
      hide Receipted, Reachable, Meanwhile, Begun;
      forall v | Meanwhile(u, v, Some(pub.transfer)) ensures OnTrack(v, profile, origin, prior, pub, held) {
        if io == FailedBefore {
          OnTrackMeanwhile(s, v, profile, origin, prior, pub, held);
        } else {
          ReceiptedReachable(s, v, profile, x, origin, prior, pub, held);
        }
      }
    }

    /** Retires the rows whose content goes: they stay listed, but are no longer delivered and keep no
        receipt. */
    method Evict(gone: set<Digest>, io: WriteResult) returns (r: Result<set<nat>, StoreError>)
      requires Valid()
      modifies store
      ensures Valid() && old(store.points) <= store.points
      ensures TheIndex() == if io == FailedBefore then old(TheIndex()) else Evicted(old(TheIndex()), identity, gone)
      ensures io != FailedBefore ==> RetiredFrom(old(TheIndex()), TheIndex(), identity, gone)
      ensures r.Ok? ==> forall i :: i in r.value <==>
        exists k :: 0 <= k < |old(TheIndex()).rows| && old(TheIndex()).rows[k].item == i && Goes(old(TheIndex()).rows[k], identity, gone)
      ensures r.Ok? ==> r.value == Affected(old(TheIndex()).rows, identity, gone)
      ensures r.Ok? <==> io == WriteResult.Written
    {
      hide Inv, Held, Rows, Evicted, Meanwhile, RetiredFrom, Goes, Affected;
      var x := Evicted(TheIndex(), identity, gone);
      assert Inv(store.sha, store.named, store.files);
      ProfileRows(store.sha, store.named, store.files, profile);
      EvictedRows(TheIndex(), identity, gone);
      EvictedExactly(TheIndex(), identity, gone);
      ghost var u := if io == FailedBefore then store.files else store.files.(indexes := store.files.indexes[profile := x]);
      var affected := Affected(TheIndex().rows, identity, gone);
      var ok := Save(x, io, None);
      MeanwhileSame(u, store.files, None);
      return if ok then Ok(affected) else Err(StoreIo);
    }

    /** Deletes rows, and with them their receipts. */
    method Delete(items: set<nat>, io: WriteResult) returns (ok: bool)
      requires Valid()
      modifies store
      ensures Valid() && old(store.points) <= store.points && (ok <==> io == WriteResult.Written)
      ensures if io == FailedBefore then TheIndex() == old(TheIndex()) else DeletedFrom(old(TheIndex()), TheIndex(), items)
    {
      hide Inv, Held, Rows, Meanwhile, DeletedFrom, HasItem;
      var x := Document(Kept(TheIndex().rows, items), TheIndex().receipts);
      assert Inv(store.sha, store.named, store.files);
      ProfileRows(store.sha, store.named, store.files, profile);
      DeletedExactly(TheIndex(), items);
      ghost var u := if io == FailedBefore then store.files else store.files.(indexes := store.files.indexes[profile := x]);
      ok := Save(x, io, None);
      MeanwhileSame(u, store.files, None);
    }

    /** Retires one published item after it was materialized, with every other row of the same content, and
        collects what nothing refers to any more. An object then stays only for a deliverable row or for a
        link somebody held meanwhile; deliverable rows of other contents stay as they are, with their data. */
    method RetireItem(item: nat, io: WriteResult) returns (r: Result<set<nat>, StoreError>)
      requires Valid()
      modifies store
      ensures Valid() && old(store.points) <= store.points
      ensures r.Ok? ==> forall k :: RowAt(old(TheIndex()).rows, k, item) && old(TheIndex()).rows[k].published ==>
        RetiredFrom(old(TheIndex()), TheIndex(), identity, {identity(old(TheIndex()).rows[k].manifest)})
      ensures r.Ok? ==> forall k :: RowAt(old(TheIndex()).rows, k, item) && Live(old(TheIndex()).rows[k]) ==> item in r.value
      ensures forall k :: 0 <= k < |old(TheIndex()).rows| && old(OtherContent(item, k)) ==>
        k < |TheIndex().rows| && TheIndex().rows[k] == old(TheIndex()).rows[k] && Held(store.files, TheIndex().rows[k].manifest)
      ensures r.Ok? && r.value != {} ==> forall d :: d in store.files.objects ==>
        ObjectNeeded(store.files, d) || !store.ObjectBare(|old(store.points)|, d)
    {
      hide Inv, Held, Rows, Evicted, Meanwhile, ObjectNeeded, RetiredFrom, Affected, store.ObjectBare;
      assert Inv(store.sha, store.named, store.files);
      ProfileRows(store.sha, store.named, store.files, profile);
      var k := FindRow(TheIndex().rows, item);
      ghost var x := TheIndex();
      if k.None? || !TheIndex().rows[k.value].published {
        LiveRowsHeld();
        if k.Some? {
          OnlyRow(x, k.value, item);
        }
        return Ok({});
      }
      OnlyRow(x, k.value, item);
      r := RetireContent(identity(TheIndex().rows[k.value].manifest), io);
      LiveRowsHeld();
      OthersStay(x, TheIndex(), identity, identity(x.rows[k.value].manifest));
      AffectedHas(x, identity, identity(x.rows[k.value].manifest), k.value);
      forall n | 0 <= n < |x.rows| && old(OtherContent(item, n))
        ensures n < |TheIndex().rows| && TheIndex().rows[n] == x.rows[n] && Held(store.files, TheIndex().rows[n].manifest)
      {
        assert RowAt(x.rows, k.value, item);
      }
    }

    /** Row k is deliverable and of another content than the item's row. */
    ghost predicate OtherContent(item: nat, k: nat)
      requires profile in store.files.indexes && k < |TheIndex().rows|
      reads store
    {
      && Live(TheIndex().rows[k])
      && forall j :: RowAt(TheIndex().rows, j, item) ==> identity(TheIndex().rows[j].manifest) != identity(TheIndex().rows[k].manifest)
    }

    lemma LiveRowsHeld()
      requires Valid()
      ensures forall k :: 0 <= k < |TheIndex().rows| && Live(TheIndex().rows[k]) ==> Held(store.files, TheIndex().rows[k].manifest)
    {
      hide Held;
    }

    method RetireContent(content: Digest, io: WriteResult) returns (r: Result<set<nat>, StoreError>)
      requires Valid()
      modifies store
      ensures Valid() && old(store.points) <= store.points
      ensures r.Ok? || io != FailedBefore || TheIndex() == old(TheIndex())
      ensures TheIndex() == old(TheIndex()) || RetiredFrom(old(TheIndex()), TheIndex(), identity, {content})
      ensures r.Ok? ==> RetiredFrom(old(TheIndex()), TheIndex(), identity, {content}) && r.value == Affected(old(TheIndex()).rows, identity, {content})
      ensures r.Ok? && r.value != {} ==> forall d :: d in store.files.objects ==>
        ObjectNeeded(store.files, d) || !store.ObjectBare(|old(store.points)|, d)
    {
      hide Inv, Held, Rows, Evicted, Meanwhile, ObjectNeeded, ObjectDead, ManifestDead, ManifestNeeded, Links, NameCount, RetiredFrom, Affected;
      ghost var x := TheIndex();
      var affected := Affected(TheIndex().rows, identity, {content});
      if affected == {} {
        NothingGoes(x, identity, {content});
        return Ok({});
      }
      r := Evict({content}, io);
      if r.Err? {
        return;
      }
      assert Inv(store.sha, store.named, store.files);
      SomethingGoes(x, TheIndex(), identity, {content});
      ghost var was, seen := store.files, |store.points| - 1;
      var count := store.CollectGarbage();
      SameNeeds(was, store.files);
      assert forall d :: store.ObjectBare(|old(store.points)|, d) ==> store.ObjectBare(seen, d);
    }
  }

  lemma SomethingGoes(x: Index, y: Index, identity: J.Manifest -> Digest, gone: set<Digest>)
    requires Affected(x.rows, identity, gone) != {} && RetiredFrom(x, y, identity, gone)
    ensures y != x
  {
    var i :| i in Affected(x.rows, identity, gone);
    var k :| 0 <= k < |x.rows| && Live(x.rows[k]) && identity(x.rows[k].manifest) in gone && x.rows[k].item == i;
    assert Goes(x.rows[k], identity, gone) && !y.rows[k].deliverable;
  }

  lemma OthersStay(x: Index, y: Index, identity: J.Manifest -> Digest, content: Digest)
    requires y == x || RetiredFrom(x, y, identity, {content})
    ensures forall k :: 0 <= k < |x.rows| && identity(x.rows[k].manifest) != content ==> k < |y.rows| && y.rows[k] == x.rows[k]
  {
  }

  lemma AffectedHas(x: Index, identity: J.Manifest -> Digest, content: Digest, k: nat)
    requires k < |x.rows| && identity(x.rows[k].manifest) == content
    ensures Live(x.rows[k]) ==> x.rows[k].item in Affected(x.rows, identity, {content})
  {
  }

  lemma NothingGoes(x: Index, identity: J.Manifest -> Digest, gone: set<Digest>)
    requires Affected(x.rows, identity, gone) == {}
    ensures RetiredFrom(x, x, identity, gone)
  {
    assert forall k :: 0 <= k < |x.rows| && Live(x.rows[k]) && identity(x.rows[k].manifest) in gone ==> x.rows[k].item in Affected(x.rows, identity, gone);
  }
}
