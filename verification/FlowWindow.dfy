/** Values and transition functions of the stream V2 send window and its coordinator.
    The classes in FlowControl refine these functions step by step. */
module FlowWindow {
  import opened Common
  import opened Sums

  const MIB: nat := 1024 * 1024
  const MAX_BINARY_PAYLOAD_BYTES: nat := 4 * MIB
  const MAX_ENTRY_INDEX: nat := 199_999
  const MAX_LOGICAL_OFFSET: nat := 100 * 1024 * 1024 * MIB
  const MAX_MISSING_RANGES: nat := 64

  datatype Peer = Peer(name: string)

  datatype Limits = Limits(
    chunkSize: nat,
    maxActiveGlobal: nat, maxActivePerPeer: nat,
    maxInflightChunks: nat, maxInflightBytes: nat,
    ackBytes: nat, ackChunks: nat, ackInterval: real, ackTimeout: real)

  predicate ValidLimits(l: Limits) {
    && MIB <= l.chunkSize <= MAX_BINARY_PAYLOAD_BYTES
    && 0 < l.maxActivePerPeer <= l.maxActiveGlobal
    && 0 < l.maxInflightChunks && 0 < l.maxInflightBytes
    && 0 < l.ackBytes && 0 < l.ackChunks
    && 0.0 < l.ackInterval && 0.0 < l.ackTimeout
  }

  const DEFAULT_LIMITS := Limits(2 * MIB, 2, 1, 4, 16 * MIB, 8 * MIB, 4, 0.25, 30.0)

  datatype ReceiverState =
    Transferring | Paused | Verifying | Finalizing | Completed | Cancelled | Failed

  predicate Closing(s: ReceiverState) {
    s in {Paused, Completed, Cancelled, Failed}
  }

  /** A cumulative acknowledgement as it arrives, before its geometry is checked. */
  datatype Ack = Ack(transferId: TransferId, entry: int, verified: int, durable: int,
                     state: ReceiverState, missing: seq<(int, int)>)

  predicate RangesOk(ranges: seq<(int, int)>, previousEnd: int)
    decreases |ranges|
  {
    ranges == [] ||
    (var (start, end) := ranges[0];
     && 0 <= start <= MAX_LOGICAL_OFFSET && 0 <= end <= MAX_LOGICAL_OFFSET
     && previousEnd <= start < end
     && RangesOk(ranges[1..], end))
  }

  /** A missing range is not empty, and begins where the one before it ended or later. */
  ghost predicate RangeAt(ranges: seq<(int, int)>, previousEnd: int, k: int)
    requires 0 <= k < |ranges|
  {
    0 <= ranges[k].0 < ranges[k].1 <= 109_951_162_777_600 && ranges[k].0 >= if k == 0 then previousEnd else ranges[k - 1].1
  }

  lemma {:induction false} RangesAre(ranges: seq<(int, int)>, previousEnd: int)
    ensures RangesOk(ranges, previousEnd) <==> forall k :: 0 <= k < |ranges| ==> RangeAt(ranges, previousEnd, k)
    decreases |ranges|
  {
    if ranges != [] {
      var rest, end := ranges[1..], ranges[0].1;
      RangesAre(rest, end);
      forall k | 0 < k < |ranges| ensures RangeAt(ranges, previousEnd, k) <==> RangeAt(rest, end, k - 1) {
        assert ranges[k] == rest[k - 1] && (k > 1 ==> ranges[k - 1] == rest[k - 2]);
      }
      if forall k :: 0 <= k < |ranges| ==> RangeAt(ranges, previousEnd, k) {
        forall k | 0 <= k < |rest| ensures RangeAt(rest, end, k) {
          assert RangeAt(ranges, previousEnd, k + 1);
        }
        assert RangeAt(ranges, previousEnd, 0);
      }
      if RangesOk(ranges, previousEnd) {
        forall k | 0 <= k < |ranges| ensures RangeAt(ranges, previousEnd, k) {
          assert k > 0 ==> RangeAt(rest, end, k - 1);
        }
      }
    }
  }

  /** An acknowledgement as it may come from the wire. */
  ghost predicate AckInForm(a: Ack) {
    && 0 <= a.entry <= 199_999 && 0 <= a.durable <= a.verified <= 109_951_162_777_600 && |a.missing| <= 64
    && forall k :: 0 <= k < |a.missing| ==> RangeAt(a.missing, a.verified, k)
  }

  lemma WellFormedIs(a: Ack)
    ensures AckWellFormed(a) <==> AckInForm(a)
  {
    RangesAre(a.missing, a.verified);
  }

  predicate AckWellFormed(a: Ack) {
    && 0 <= a.entry <= MAX_ENTRY_INDEX
    && 0 <= a.durable <= a.verified <= MAX_LOGICAL_OFFSET
    && |a.missing| <= MAX_MISSING_RANGES
    && RangesOk(a.missing, a.verified)
  }

  datatype Chunk = Chunk(entry: nat, offset: nat, end: nat, payload: seq<Byte>, size: nat, sentAt: real)

  datatype Window = Window(
    id: TransferId, peer: Peer, chunks: seq<Chunk>,
    next: map<nat, nat>, acked: map<nat, nat>, durable: map<nat, nat>,
    resume: map<nat, nat>, payloadEntries: set<nat>,
    receiverState: ReceiverState, closed: bool)

  datatype Coordinator = Coordinator(
    windows: map<TransferId, Window>, peerCounts: map<Peer, nat>, inflight: int, closed: bool)

  /** What a call reports to its caller. Every outcome but `Done` stands for a raised error. */
  datatype Outcome = Done | Refused | WindowClosed | WouldBlock

  datatype AckOutcome =
    | AckApplied(releasedChunks: nat, releasedBytes: nat, discardedBytes: nat, state: ReceiverState)
    | AckRefused
    | AckClosed

  // ---------------------------------------------------------------- chunk sequences

  function Of(chunks: seq<Chunk>, entry: nat): seq<Chunk> {
    if chunks == [] then []
    else if chunks[0].entry == entry then [chunks[0]] + Of(chunks[1..], entry)
    else Of(chunks[1..], entry)
  }

  predicate Covered(c: Chunk, entry: nat, verified: int) {
    c.entry == entry && c.end <= verified
  }

  function Retained(chunks: seq<Chunk>, entry: nat, verified: int): seq<Chunk> {
    if chunks == [] then []
    else if Covered(chunks[0], entry, verified) then Retained(chunks[1..], entry, verified)
    else [chunks[0]] + Retained(chunks[1..], entry, verified)
  }

  function Bytes(chunks: seq<Chunk>): nat {
    if chunks == [] then 0 else chunks[0].size + Bytes(chunks[1..])
  }

  predicate Boundary(chunks: seq<Chunk>, entry: nat, current: nat, verified: int) {
    verified == current || exists c :: c in chunks && c.entry == entry && c.end == verified
  }

  /** The chunks are non-empty, well measured and lie end to end from `lo` to `hi`. */
  predicate Tiles(chunks: seq<Chunk>, lo: int, hi: int) {
    if chunks == [] then lo == hi
    else
      && chunks[0].offset == lo
      && chunks[0].size == |chunks[0].payload| > 0
      && chunks[0].end == lo + chunks[0].size
      && Tiles(chunks[1..], chunks[0].end, hi)
  }

  // ---------------------------------------------------------------- window steps

  function OpenWindow(id: TransferId, peer: Peer): Window {
    Window(id, peer, [], map[], map[], map[], map[], {}, Transferring, false)
  }

  function InitializeResume(w: Window, entry: int, offset: int): (Window, Outcome) {
    if !(0 <= entry <= MAX_ENTRY_INDEX) || !(0 <= offset <= MAX_LOGICAL_OFFSET) then (w, Refused)
    else if w.closed then (w, WindowClosed)
    else if entry in w.payloadEntries then (w, Refused)
    else if entry in w.resume then (w, if offset != w.resume[entry] then Refused else Done)
    else if entry in w.next then (w, Refused)
    else (w.(resume := w.resume[entry := offset], next := w.next[entry := offset],
             acked := w.acked[entry := offset], durable := w.durable[entry := offset]), Done)
  }

  predicate PayloadOk(l: Limits, entry: int, offset: int, payload: seq<Byte>) {
    && 0 <= entry <= MAX_ENTRY_INDEX && 0 <= offset <= MAX_LOGICAL_OFFSET
    && 0 < |payload| <= MAX_BINARY_PAYLOAD_BYTES
    && offset + |payload| <= MAX_LOGICAL_OFFSET
    && |payload| <= l.maxInflightBytes
  }

  predicate HasRoom(l: Limits, w: Window, inflight: int, size: nat) {
    |w.chunks| < l.maxInflightChunks && inflight + size <= l.maxInflightBytes
  }

  function Tracked(w: Window, entry: nat, offset: nat, payload: seq<Byte>, now: real): Window {
    var end := offset + |payload|;
    w.(chunks := w.chunks + [Chunk(entry, offset, end, payload, |payload|, now)],
       next := w.next[entry := end],
       acked := if entry in w.acked then w.acked else w.acked[entry := offset],
       durable := if entry in w.durable then w.durable else w.durable[entry := 0],
       payloadEntries := w.payloadEntries + {entry})
  }

  /** One attempt of `track_sent`; the program waits and tries again while it would block. */
  function TrackSent(l: Limits, w: Window, inflight: int, entry: int, offset: int,
                     payload: seq<Byte>, now: real): (Window, int, Outcome)
  {
    if !PayloadOk(l, entry, offset, payload) then (w, inflight, Refused)
    else if entry in w.next && offset != w.next[entry] then (w, inflight, Refused)
    else if w.closed then (w, inflight, WindowClosed)
    else if !HasRoom(l, w, inflight, |payload|) then (w, inflight, WouldBlock)
    else (Tracked(w, entry, offset, payload, now), inflight + |payload|, Done)
  }

  /** The window after a well-formed acknowledgement of this transfer, with the bytes released
      by the acknowledgement and the bytes discarded because it closes the window. */
  function AckWindow(w: Window, a: Ack): (Window, AckOutcome)
    requires AckWellFormed(a)
    requires w.acked.Keys <= w.durable.Keys
  {
    if w.closed then (w, AckClosed)
    else if a.entry !in w.acked then
      (w, if a.state == Transferring then AckApplied(0, 0, 0, a.state) else AckRefused)
    else
      var current := w.acked[a.entry];
      if a.durable < w.durable[a.entry] then (w, AckRefused)
      else if a.verified < current && a.state == Transferring then
        (w.(durable := w.durable[a.entry := a.durable]), AckApplied(0, 0, 0, a.state))
      else
        var verified := if a.verified < current then current else a.verified;
        if !Boundary(w.chunks, a.entry, current, verified) then (w, AckRefused)
        else Settle(w, a, verified)
  }

  /** Releases everything the acknowledgement covers, and closes the window if its state asks to. */
  function Settle(w: Window, a: Ack, verified: nat): (Window, AckOutcome)
    requires AckWellFormed(a)
  {
    var kept := Retained(w.chunks, a.entry, verified);
    if a.state == Completed && kept != [] then (w, AckRefused)
    else
      RetainedBytes(w.chunks, a.entry, verified);
      var released := Released(w, a, verified);
      if Closing(a.state) then
        (released.(chunks := [], closed := true),
         AckApplied(|w.chunks| - |kept|, Bytes(w.chunks) - Bytes(kept), Bytes(kept), a.state))
      else
        (released, AckApplied(|w.chunks| - |kept|, Bytes(w.chunks) - Bytes(kept), 0, a.state))
  }

  function Released(w: Window, a: Ack, verified: nat): Window
    requires a.entry >= 0 && a.durable >= 0
  {
    w.(chunks := Retained(w.chunks, a.entry, verified), acked := w.acked[a.entry := verified],
       durable := w.durable[a.entry := a.durable], receiverState := a.state)
  }

  lemma {:induction false} RetainedBytes(chunks: seq<Chunk>, entry: nat, verified: int)
    ensures |Retained(chunks, entry, verified)| <= |chunks|
    ensures Bytes(Retained(chunks, entry, verified)) <= Bytes(chunks)
  {
    if chunks != [] {
      RetainedBytes(chunks[1..], entry, verified);
    }
  }

  // ---------------------------------------------------------------- coordinator steps

  datatype Op =
    | Open(id: TransferId, peer: Peer)
    | Resume(id: TransferId, entry: int, offset: int)
    | Send(id: TransferId, entry: int, offset: int, payload: seq<Byte>, now: real)
    | Receive(id: TransferId, ack: Ack)
    | Close(id: TransferId)
    | Shutdown

  predicate PeerOk(peer: Peer) {
    0 < |peer.name| <= 256
  }

  function CountOf(c: Coordinator, peer: Peer): nat {
    if peer in c.peerCounts then c.peerCounts[peer] else 0
  }

  function OpenTransfer(l: Limits, c: Coordinator, id: TransferId, peer: Peer): (Coordinator, Outcome) {
    if !PeerOk(peer) || id in c.windows then (c, Refused)
    else if |c.windows| >= l.maxActiveGlobal || CountOf(c, peer) >= l.maxActivePerPeer then
      (c, if c.closed then WindowClosed else WouldBlock)
    else if c.closed then (c, WindowClosed)
    else (c.(windows := c.windows[id := OpenWindow(id, peer)],
             peerCounts := c.peerCounts[peer := CountOf(c, peer) + 1]), Done)
  }

  function WithoutPeer(counts: map<Peer, nat>, peer: Peer): map<Peer, nat> {
    if peer in counts && counts[peer] > 1 then counts[peer := counts[peer] - 1] else counts - {peer}
  }

  /** Drops an open window together with everything it still has in flight. */
  function CloseTransfer(c: Coordinator, id: TransferId): (Coordinator, bool) {
    if id !in c.windows then (c, false)
    else
      var w := c.windows[id];
      (c.(windows := c.windows - {id}, peerCounts := WithoutPeer(c.peerCounts, w.peer),
          inflight := c.inflight - Bytes(w.chunks)), true)
  }

  /** An acknowledgement handed to the open window `id`. */
  function ApplyAck(c: Coordinator, id: TransferId, a: Ack): (Coordinator, AckOutcome)
    requires id in c.windows && c.windows[id].acked.Keys <= c.windows[id].durable.Keys
  {
    var w := c.windows[id];
    if !AckWellFormed(a) then (c, AckRefused)
    else if a.transferId != w.id then (c, AckApplied(0, 0, 0, w.receiverState))
    else
      var (w', r) := AckWindow(w, a);
      if !r.AckApplied? then (c, r)
      else (Absorb(c, id, w', c.inflight - r.releasedBytes - r.discardedBytes), r)
  }

  /** Puts the acknowledged window back, or drops it when the acknowledgement closed it. */
  function Absorb(c: Coordinator, id: TransferId, w: Window, inflight: int): Coordinator {
    if w.closed then
      c.(windows := c.windows - {id}, peerCounts := WithoutPeer(c.peerCounts, w.peer), inflight := inflight)
    else c.(windows := c.windows[id := w], inflight := inflight)
  }

  function Step(l: Limits, c: Coordinator, op: Op): Coordinator
    requires CoordinatorInv(l, c)
  {
    match op
    case Open(id, peer) => OpenTransfer(l, c, id, peer).0
    case Resume(id, entry, offset) =>
      if id in c.windows then c.(windows := c.windows[id := InitializeResume(c.windows[id], entry, offset).0])
      else c
    case Send(id, entry, offset, payload, now) =>
      if id in c.windows then
        var (w, inflight, _) := TrackSent(l, c.windows[id], c.inflight, entry, offset, payload, now);
        c.(windows := c.windows[id := w], inflight := inflight)
      else c
    case Receive(id, ack) =>
      if id in c.windows then assert WindowInv(l, c.windows[id]); ApplyAck(c, id, ack).0 else c
    case Close(id) => CloseTransfer(c, id).0
    case Shutdown => Coordinator(map[], map[], 0, true)
  }

  // ---------------------------------------------------------------- invariants

  ghost predicate WindowInv(l: Limits, w: Window) {
    && w.next.Keys == w.acked.Keys == w.durable.Keys
    && w.resume.Keys <= w.next.Keys
    && |w.chunks| <= l.maxInflightChunks
    && (forall c :: c in w.chunks ==> c.entry in w.next)
    && (forall e {:trigger EntryInv(w, e)} :: e in w.next ==> EntryInv(w, e))
  }

  /** One entry: durable, acknowledged and sent offsets in order, with its chunks filling the gap. */
  ghost predicate EntryInv(w: Window, e: nat) {
    && e in w.next && e in w.acked && e in w.durable
    && w.durable[e] <= w.acked[e] <= w.next[e] <= MAX_LOGICAL_OFFSET
    && Tiles(Of(w.chunks, e), w.acked[e], w.next[e])
  }

  ghost function PeerWindows(c: Coordinator, peer: Peer): set<TransferId> {
    set id | id in c.windows && c.windows[id].peer == peer
  }

  ghost function WindowBytes(ws: map<TransferId, Window>): TransferId -> int {
    id => if id in ws then Bytes(ws[id].chunks) else 0
  }

  ghost predicate CountsExact(l: Limits, c: Coordinator) {
    && (forall p :: p in c.peerCounts ==> 0 < c.peerCounts[p] <= l.maxActivePerPeer)
    && (forall p {:trigger PeerWindows(c, p)} :: CountOf(c, p) == |PeerWindows(c, p)|)
  }

  ghost predicate WindowsInv(l: Limits, ws: map<TransferId, Window>) {
    forall id {:trigger WindowInv(l, ws[id])} :: id in ws ==> ws[id].id == id && !ws[id].closed && WindowInv(l, ws[id])
  }

  ghost predicate CoordinatorInv(l: Limits, c: Coordinator) {
    && ValidLimits(l)
    && WindowsInv(l, c.windows)
    && c.inflight == Sum(c.windows.Keys, WindowBytes(c.windows))
    && 0 <= c.inflight <= l.maxInflightBytes
    && |c.windows| <= l.maxActiveGlobal
    && CountsExact(l, c)
  }

  // ---------------------------------------------------------------- chunk lemmas

  lemma {:induction false} OfAppend(chunks: seq<Chunk>, c: Chunk, e: nat)
    ensures Of(chunks + [c], e) == if c.entry == e then Of(chunks, e) + [c] else Of(chunks, e)
  {
    if chunks == [] {
    } else {
      assert (chunks + [c])[1..] == chunks[1..] + [c];
      OfAppend(chunks[1..], c, e);
    }
  }

  lemma {:induction false} OfMember(chunks: seq<Chunk>, c: Chunk, e: nat)
    ensures c in Of(chunks, e) <==> c in chunks && c.entry == e
  {
    if chunks != [] {
      OfMember(chunks[1..], c, e);
    }
  }

  lemma {:induction false} BytesAppend(chunks: seq<Chunk>, c: Chunk)
    ensures Bytes(chunks + [c]) == Bytes(chunks) + c.size
  {
    if chunks != [] {
      assert (chunks + [c])[1..] == chunks[1..] + [c];
      BytesAppend(chunks[1..], c);
    }
  }

  lemma {:induction false} TilesAppend(chunks: seq<Chunk>, c: Chunk, lo: int, hi: int)
    requires Tiles(chunks, lo, hi)
    requires c.offset == hi && c.size == |c.payload| > 0 && c.end == hi + c.size
    ensures Tiles(chunks + [c], lo, c.end)
  {
    if chunks == [] {
    } else {
      assert (chunks + [c])[1..] == chunks[1..] + [c];
      TilesAppend(chunks[1..], c, chunks[0].end, hi);
    }
  }

  lemma {:induction false} TilesBounds(chunks: seq<Chunk>, lo: int, hi: int)
    requires Tiles(chunks, lo, hi)
    ensures Bytes(chunks) == hi - lo
    ensures forall c :: c in chunks ==> lo <= c.offset < c.end <= hi
    ensures chunks != [] ==> chunks[|chunks| - 1].end == hi
  {
    if chunks != [] {
      TilesBounds(chunks[1..], chunks[0].end, hi);
    }
  }

  lemma {:induction false} RetainedOf(chunks: seq<Chunk>, e: nat, verified: int, f: nat)
    ensures Of(Retained(chunks, e, verified), f)
         == if f == e then Retained(Of(chunks, e), e, verified) else Of(chunks, f)
    ensures forall c :: c in Retained(chunks, e, verified) <==> c in chunks && !Covered(c, e, verified)
  {
    if chunks != [] {
      RetainedOf(chunks[1..], e, verified, f);
    }
  }

  /** Cutting a tiling at one of its boundaries leaves the tiling of the rest. */
  lemma {:induction false} TilesRetained(chunks: seq<Chunk>, e: nat, lo: int, hi: int, v: int)
    requires Tiles(chunks, lo, hi)
    requires forall c :: c in chunks ==> c.entry == e
    requires v == lo || exists c :: c in chunks && c.end == v
    ensures Tiles(Retained(chunks, e, v), v, hi)
    ensures lo <= v <= hi
  {
    TilesBounds(chunks, lo, hi);
    if chunks != [] {
      if v == lo {
        RetainedNone(chunks, e, v);
      } else {
        var c :| c in chunks && c.end == v;
        TilesBounds(chunks[1..], chunks[0].end, hi);
        assert c == chunks[0] || c in chunks[1..];
        TilesRetained(chunks[1..], e, chunks[0].end, hi, v);
      }
    }
  }

  lemma {:induction false} RetainedNone(chunks: seq<Chunk>, e: nat, v: int)
    requires forall c :: c in chunks ==> !Covered(c, e, v)
    ensures Retained(chunks, e, v) == chunks
  {
    if chunks != [] {
      RetainedNone(chunks[1..], e, v);
    }
  }

  // ---------------------------------------------------------------- window preservation

  lemma TrackedKeepsEntry(w: Window, entry: nat, offset: nat, payload: seq<Byte>, now: real, e: nat)
    requires EntryInv(w, e)
    requires 0 < |payload| && offset + |payload| <= MAX_LOGICAL_OFFSET
    requires entry in w.next ==> offset == w.next[entry]
    ensures EntryInv(Tracked(w, entry, offset, payload, now), e)
  {
    var c := Chunk(entry, offset, offset + |payload|, payload, |payload|, now);
    OfAppend(w.chunks, c, e);
    if e == entry {
      TilesAppend(Of(w.chunks, e), c, w.acked[e], w.next[e]);
    }
  }

  lemma TrackedStartsEntry(w: Window, entry: nat, offset: nat, payload: seq<Byte>, now: real)
    requires entry !in w.next && entry !in w.acked && entry !in w.durable
    requires forall c :: c in w.chunks ==> c.entry != entry
    requires 0 < |payload| && offset + |payload| <= MAX_LOGICAL_OFFSET
    ensures EntryInv(Tracked(w, entry, offset, payload, now), entry)
  {
    var c := Chunk(entry, offset, offset + |payload|, payload, |payload|, now);
    OfAppend(w.chunks, c, entry);
    NoneOf(w.chunks, entry);
    assert [] + [c] == [c];
    TilesAppend([], c, offset, offset);
  }

  lemma TrackedKeepsInv(l: Limits, w: Window, entry: nat, offset: nat, payload: seq<Byte>, now: real)
    requires WindowInv(l, w) && PayloadOk(l, entry, offset, payload)
    requires entry in w.next ==> offset == w.next[entry]
    requires |w.chunks| < l.maxInflightChunks
    ensures WindowInv(l, Tracked(w, entry, offset, payload, now))
    ensures Bytes(Tracked(w, entry, offset, payload, now).chunks) == Bytes(w.chunks) + |payload|
  {
    var w' := Tracked(w, entry, offset, payload, now);
    BytesAppend(w.chunks, w'.chunks[|w.chunks|]);
    forall e | e in w'.next ensures EntryInv(w', e) {
      if e in w.next {
        TrackedKeepsEntry(w, entry, offset, payload, now, e);
      } else {
        TrackedStartsEntry(w, entry, offset, payload, now);
      }
    }
  }

  lemma {:induction false} NoneOf(chunks: seq<Chunk>, e: nat)
    requires forall c :: c in chunks ==> c.entry != e
    ensures Of(chunks, e) == []
  {
    if chunks != [] {
      NoneOf(chunks[1..], e);
    }
  }

  lemma ReleasedKeepsEntry(l: Limits, w: Window, a: Ack, v: nat, e: nat)
    requires WindowInv(l, w) && AckWellFormed(a) && a.entry in w.next && e in w.next
    requires w.acked[a.entry] <= v && a.durable <= v && Boundary(w.chunks, a.entry, w.acked[a.entry], v)
    ensures EntryInv(Released(w, a, v), e)
  {
    assert EntryInv(w, e);
    RetainedOf(w.chunks, a.entry, v, e);
    if e == a.entry {
      AckBoundary(w.chunks, e, w.acked[e], w.next[e], v);
    }
  }

  lemma ReleasedKeepsInv(l: Limits, w: Window, a: Ack, v: nat)
    requires WindowInv(l, w) && AckWellFormed(a) && a.entry in w.next
    requires w.acked[a.entry] <= v && a.durable <= v && Boundary(w.chunks, a.entry, w.acked[a.entry], v)
    ensures WindowInv(l, Released(w, a, v))
  {
    var w' := Released(w, a, v);
    RetainedBytes(w.chunks, a.entry, v);
    RetainedOf(w.chunks, a.entry, v, a.entry);
    forall e | e in w'.next ensures EntryInv(w', e) {
      ReleasedKeepsEntry(l, w, a, v, e);
    }
  }

  lemma DurableKeepsInv(l: Limits, w: Window, e: nat, durable: nat)
    requires WindowInv(l, w) && e in w.next && durable <= w.acked[e]
    ensures WindowInv(l, w.(durable := w.durable[e := durable]))
  {
    var w' := w.(durable := w.durable[e := durable]);
    forall f | f in w'.next ensures EntryInv(w', f) {
      assert EntryInv(w, f);
    }
  }

  lemma AckKeepsWindowInv(l: Limits, w: Window, a: Ack)
    requires WindowInv(l, w) && AckWellFormed(a)
    ensures var (w', r) := AckWindow(w, a);
      && (w'.closed || WindowInv(l, w'))
      && (r.AckApplied? ==> Bytes(w'.chunks) == Bytes(w.chunks) - r.releasedBytes - r.discardedBytes)
  {
    if !w.closed && a.entry in w.acked && a.durable >= w.durable[a.entry] {
      var current := w.acked[a.entry];
      if a.verified < current && a.state == Transferring {
        DurableKeepsInv(l, w, a.entry, a.durable);
      } else {
        var v := if a.verified < current then current else a.verified;
        if Boundary(w.chunks, a.entry, current, v) {
          ReleasedKeepsInv(l, w, a, v);
        }
      }
    }
  }

  lemma AckFrame(w: Window, a: Ack)
    requires AckWellFormed(a) && w.acked.Keys <= w.durable.Keys
    ensures var (w', r) := AckWindow(w, a);
      && w'.id == w.id && w'.peer == w.peer
      && (!r.AckApplied? ==> w' == w)
      && (w'.closed ==> w.closed || Closing(a.state))
  {
  }

  lemma AckBoundary(chunks: seq<Chunk>, e: nat, lo: nat, hi: nat, v: int)
    requires Tiles(Of(chunks, e), lo, hi) && Boundary(chunks, e, lo, v)
    ensures Tiles(Retained(Of(chunks, e), e, v), v, hi) && lo <= v <= hi
  {
    forall c ensures c in Of(chunks, e) <==> c in chunks && c.entry == e {
      OfMember(chunks, c, e);
    }
    TilesRetained(Of(chunks, e), e, lo, hi, v);
  }

  // ---------------------------------------------------------------- coordinator preservation

  lemma BytesAfterReplace(ws: map<TransferId, Window>, id: TransferId, w: Window)
    requires id in ws
    ensures var ws' := ws[id := w];
      && ws'.Keys == ws.Keys
      && Sum(ws'.Keys, WindowBytes(ws')) == Sum(ws.Keys, WindowBytes(ws)) - Bytes(ws[id].chunks) + Bytes(w.chunks)
      && Sum(ws'.Keys, WindowBytes(ws')) >= 0
  {
    var ws' := ws[id := w];
    assert ws'.Keys == ws.Keys;
    SumChange(ws.Keys, WindowBytes(ws), WindowBytes(ws'), id);
    SumNonNegative(ws.Keys, WindowBytes(ws'));
  }

  lemma CountsAfterReplace(l: Limits, c: Coordinator, c': Coordinator, id: TransferId, w: Window)
    requires CountsExact(l, c) && id in c.windows && w.peer == c.windows[id].peer
    requires c'.windows == c.windows[id := w] && c'.peerCounts == c.peerCounts
    ensures CountsExact(l, c')
  {
    forall p ensures CountOf(c', p) == |PeerWindows(c', p)| {
      assert PeerWindows(c', p) == PeerWindows(c, p);
    }
  }

  /** Replacing one open window changes the shared byte count by that window's change. */
  lemma ReplaceWindow(l: Limits, c: Coordinator, id: TransferId, w: Window, inflight: int)
    requires CoordinatorInv(l, c) && id in c.windows
    requires WindowInv(l, w) && w.id == id && w.peer == c.windows[id].peer && !w.closed
    requires inflight == c.inflight - Bytes(c.windows[id].chunks) + Bytes(w.chunks)
    requires inflight <= l.maxInflightBytes
    ensures CoordinatorInv(l, c.(windows := c.windows[id := w], inflight := inflight))
  {
    var c' := c.(windows := c.windows[id := w], inflight := inflight);
    WindowsAfterSet(l, c.windows, id, w);
    BytesAfterReplace(c.windows, id, w);
    CountsAfterReplace(l, c, c', id, w);
    SameSize(c.windows, id, w);
  }

  lemma BytesAfterDrop(ws: map<TransferId, Window>, id: TransferId)
    requires id in ws
    ensures var ws' := ws - {id};
      && Sum(ws'.Keys, WindowBytes(ws')) == Sum(ws.Keys, WindowBytes(ws)) - Bytes(ws[id].chunks)
      && Sum(ws'.Keys, WindowBytes(ws')) >= 0
  {
    var ws' := ws - {id};
    assert ws'.Keys == ws.Keys - {id};
    SumRemove(ws.Keys, WindowBytes(ws), id);
    SumSame(ws'.Keys, WindowBytes(ws), WindowBytes(ws'));
    SumNonNegative(ws'.Keys, WindowBytes(ws'));
  }

  lemma CountsAfterDrop(l: Limits, c: Coordinator, c': Coordinator, id: TransferId)
    requires CountsExact(l, c) && id in c.windows
    requires c'.windows == c.windows - {id} && c'.peerCounts == WithoutPeer(c.peerCounts, c.windows[id].peer)
    ensures CountsExact(l, c')
  {
    var peer := c.windows[id].peer;
    assert id in PeerWindows(c, peer);
    forall p ensures CountOf(c', p) == |PeerWindows(c', p)| {
      assert CountOf(c, p) == |PeerWindows(c, p)|;
      if p == peer {
        assert PeerWindows(c', p) == PeerWindows(c, p) - {id};
      } else {
        assert PeerWindows(c', p) == PeerWindows(c, p);
      }
    }
  }

  lemma WindowsAfterDrop(l: Limits, ws: map<TransferId, Window>, id: TransferId)
    requires WindowsInv(l, ws)
    ensures WindowsInv(l, ws - {id})
    ensures id in ws ==> Bytes(ws[id].chunks) >= 0
  {
    hide WindowInv;
  }

  lemma DropWindow(l: Limits, c: Coordinator, id: TransferId)
    requires CoordinatorInv(l, c) && id in c.windows
    ensures CoordinatorInv(l, CloseTransfer(c, id).0)
  {
    hide CountsExact, WindowsInv, ValidLimits, Bytes, WindowBytes, WithoutPeer;
    var c' := CloseTransfer(c, id).0;
    WindowsAfterDrop(l, c.windows, id);
    BytesAfterDrop(c.windows, id);
    CardinalityOfDrop(c.windows, id);
    CountsAfterDrop(l, c, c', id);
  }

  lemma CardinalityOfDrop<K, V>(m: map<K, V>, k: K)
    requires k in m
    ensures |m - {k}| == |m| - 1
  {
    assert (m - {k}).Keys == m.Keys - {k};
  }

  lemma PeersAfterAdd(c: Coordinator, c': Coordinator, id: TransferId, w: Window)
    requires id !in c.windows && c'.windows == c.windows[id := w]
    ensures forall p {:trigger PeerWindows(c', p)} :: PeerWindows(c', p) == if p == w.peer then PeerWindows(c, p) + {id} else PeerWindows(c, p)
    ensures id !in PeerWindows(c, w.peer)
  {
  }

  lemma CountsAfterAdd(l: Limits, c: Coordinator, id: TransferId, peer: Peer)
    requires CountsExact(l, c)
    ensures CountsExact(l, OpenTransfer(l, c, id, peer).0)
  {
    hide PeerWindows;
    var (c', r) := OpenTransfer(l, c, id, peer);
    if r == Done {
      PeersAfterAdd(c, c', id, OpenWindow(id, peer));
      forall p ensures CountOf(c', p) == |PeerWindows(c', p)| {
        assert CountOf(c, p) == |PeerWindows(c, p)|;
      }
    }
  }

  lemma BytesAfterAdd(ws: map<TransferId, Window>, id: TransferId, w: Window)
    requires id !in ws && w.chunks == []
    ensures var ws' := ws[id := w]; Sum(ws'.Keys, WindowBytes(ws')) == Sum(ws.Keys, WindowBytes(ws))
  {
    var ws' := ws[id := w];
    assert ws'.Keys == ws.Keys + {id};
    SumAdd(ws.Keys, WindowBytes(ws), WindowBytes(ws'), id);
  }

  lemma OpenedInv(l: Limits, id: TransferId, peer: Peer)
    ensures WindowInv(l, OpenWindow(id, peer))
  {
  }

  lemma SameSize<K, V>(m: map<K, V>, k: K, v: V)
    requires k in m
    ensures |m[k := v]| == |m|
  {
    assert m[k := v].Keys == m.Keys;
  }

  lemma WindowsAfterSet(l: Limits, ws: map<TransferId, Window>, id: TransferId, w: Window)
    requires WindowsInv(l, ws) && WindowInv(l, w) && w.id == id && !w.closed
    ensures WindowsInv(l, ws[id := w])
  {
    var ws' := ws[id := w];
    forall k | k in ws' ensures ws'[k].id == k && !ws'[k].closed && WindowInv(l, ws'[k]) {
      assert k != id ==> WindowInv(l, ws[k]);
    }
  }

  lemma AddWindow(l: Limits, c: Coordinator, id: TransferId, peer: Peer)
    requires CoordinatorInv(l, c)
    ensures CoordinatorInv(l, OpenTransfer(l, c, id, peer).0)
  {
    CountsAfterAdd(l, c, id, peer);
    if OpenTransfer(l, c, id, peer).1 == Done {
      var w := OpenWindow(id, peer);
      OpenedInv(l, id, peer);
      WindowsAfterSet(l, c.windows, id, w);
      BytesAfterAdd(c.windows, id, w);
      assert |c.windows[id := w]| == |c.windows| + 1;
    }
  }

  /** Every step of the coordinator keeps the global accounting invariant. */
  lemma StepKeepsInv(l: Limits, c: Coordinator, op: Op)
    requires CoordinatorInv(l, c)
    ensures CoordinatorInv(l, Step(l, c, op))
  {
    match op
    case Open(id, peer) => AddWindow(l, c, id, peer);
    case Resume(id, entry, offset) => if id in c.windows { ResumeKeepsInv(l, c, id, entry, offset); }
    case Send(id, entry, offset, payload, now) =>
      if id in c.windows { SendKeepsInv(l, c, id, entry, offset, payload, now); }
    case Receive(id, ack) =>
      if id in c.windows {
        assert WindowInv(l, c.windows[id]);
        ReceiveKeepsInv(l, c, id, ack);
      }
    case Close(id) => if id in c.windows { DropWindow(l, c, id); }
    case Shutdown => assert forall p :: PeerWindows(Coordinator(map[], map[], 0, true), p) == {};
  }

  lemma InitializedInv(l: Limits, w: Window, entry: int, offset: int)
    requires WindowInv(l, w)
    ensures WindowInv(l, InitializeResume(w, entry, offset).0)
  {
    var w' := InitializeResume(w, entry, offset).0;
    if w' != w {
      NoneOf(w.chunks, entry);
      forall e | e in w'.next ensures EntryInv(w', e) {
        assert e != entry ==> EntryInv(w, e);
      }
    }
  }

  lemma ResumeKeepsInv(l: Limits, c: Coordinator, id: TransferId, entry: int, offset: int)
    requires CoordinatorInv(l, c) && id in c.windows
    ensures CoordinatorInv(l, Step(l, c, Resume(id, entry, offset)))
  {
    var w := InitializeResume(c.windows[id], entry, offset).0;
    InitializedInv(l, c.windows[id], entry, offset);
    ReplaceWindow(l, c, id, w, c.inflight);
  }

  lemma SendKeepsInv(l: Limits, c: Coordinator, id: TransferId, entry: int, offset: int, payload: seq<Byte>, now: real)
    requires CoordinatorInv(l, c) && id in c.windows
    ensures CoordinatorInv(l, Step(l, c, Send(id, entry, offset, payload, now)))
  {
    var (w, inflight, r) := TrackSent(l, c.windows[id], c.inflight, entry, offset, payload, now);
    if r == Done {
      TrackedKeepsInv(l, c.windows[id], entry, offset, payload, now);
    }
    ReplaceWindow(l, c, id, w, inflight);
  }

  lemma OpenWindowFacts(l: Limits, c: Coordinator, id: TransferId)
    requires CoordinatorInv(l, c) && id in c.windows
    ensures var w := c.windows[id]; w.id == id && !w.closed && WindowInv(l, w) && w.acked.Keys <= w.durable.Keys
  {
    assert WindowInv(l, c.windows[id]);
  }

  lemma ReceiveKeepsInv(l: Limits, c: Coordinator, id: TransferId, a: Ack)
    requires CoordinatorInv(l, c) && id in c.windows && WindowInv(l, c.windows[id])
    ensures CoordinatorInv(l, ApplyAck(c, id, a).0)
  {
    hide CoordinatorInv, AckWindow, AckGood, AckWellFormed, Absorb;
    var w := c.windows[id];
    OpenWindowFacts(l, c, id);
    if AckWellFormed(a) && a.transferId == w.id {
      AckIsGood(l, w, a);
      var (w', r) := AckWindow(w, a);
      if r.AckApplied? {
        AbsorbKeepsInv(l, c, id, w', r);
      }
    }
  }

  /** What an applied acknowledgement leaves behind, whatever it released. */
  ghost predicate AckGood(l: Limits, w: Window, w': Window, r: AckOutcome) {
    && w'.id == w.id && w'.peer == w.peer
    && (if w'.closed then w'.chunks == [] else WindowInv(l, w'))
    && r.AckApplied?
    && Bytes(w'.chunks) == Bytes(w.chunks) - r.releasedBytes - r.discardedBytes
  }

  lemma AckIsGood(l: Limits, w: Window, a: Ack)
    requires WindowInv(l, w) && !w.closed && AckWellFormed(a)
    ensures var (w', r) := AckWindow(w, a); if r.AckApplied? then AckGood(l, w, w', r) else w' == w
  {
    AckKeepsWindowInv(l, w, a);
    AckFrame(w, a);
    if AckWindow(w, a).0.closed {
      ClosedAckDrops(w, a);
    }
  }

  lemma AbsorbKeepsInv(l: Limits, c: Coordinator, id: TransferId, w: Window, r: AckOutcome)
    requires CoordinatorInv(l, c) && id in c.windows && AckGood(l, c.windows[id], w, r)
    ensures CoordinatorInv(l, Absorb(c, id, w, c.inflight - r.releasedBytes - r.discardedBytes))
  {
    hide CoordinatorInv, WindowInv, Bytes;
    InvAt(l, c, id);
    if w.closed {
      NoBytes();
      DropWindow(l, c, id);
    } else {
      ReplaceWindow(l, c, id, w, c.inflight - r.releasedBytes - r.discardedBytes);
    }
  }

  lemma NoBytes()
    ensures Bytes([]) == 0
  {
  }

  lemma InvAt(l: Limits, c: Coordinator, id: TransferId)
    requires CoordinatorInv(l, c) && id in c.windows
    ensures WindowInv(l, c.windows[id]) && c.windows[id].id == id && !c.windows[id].closed && c.inflight <= l.maxInflightBytes
  {
  }

  lemma ClosedAckDrops(w: Window, a: Ack)
    requires AckWellFormed(a) && w.acked.Keys <= w.durable.Keys && !w.closed
    requires AckWindow(w, a).0.closed
    ensures AckWindow(w, a).0.chunks == []
  {
  }

  ghost function Run(l: Limits, c: Coordinator, ops: seq<Op>): (r: Coordinator)
    requires CoordinatorInv(l, c)
    ensures CoordinatorInv(l, r)
    decreases |ops|
  {
    if ops == [] then c
    else StepKeepsInv(l, c, ops[0]); Run(l, Step(l, c, ops[0]), ops[1..])
  }

  const IDLE := Coordinator(map[], map[], 0, false)

  lemma IdleInv(l: Limits)
    requires ValidLimits(l)
    ensures CoordinatorInv(l, IDLE)
  {
    assert forall p :: PeerWindows(IDLE, p) == {};
  }

  /** The shared byte count is the total of all gaps between sent and acknowledged offsets. */
  lemma InflightIsTotalGap(l: Limits, c: Coordinator)
    requires CoordinatorInv(l, c)
    ensures c.inflight == Sum(c.windows.Keys, WindowGap(c.windows))
  {
    forall id | id in c.windows ensures WindowBytes(c.windows)(id) == WindowGap(c.windows)(id) {
      BytesAreGaps(l, c.windows[id]);
    }
    SumSame(c.windows.Keys, WindowBytes(c.windows), WindowGap(c.windows));
  }

  /** The counts a coordinator reports are exact and within every configured limit. */
  ghost predicate WithinLimits(l: Limits, c: Coordinator) {
    && c.inflight == Sum(c.windows.Keys, WindowGap(c.windows)) <= l.maxInflightBytes
    && |c.windows| <= l.maxActiveGlobal
    && (forall p :: |PeerWindows(c, p)| <= l.maxActivePerPeer)
    && (forall id :: id in c.windows ==> |c.windows[id].chunks| <= l.maxInflightChunks)
  }

  lemma InvWithinLimits(l: Limits, c: Coordinator)
    requires CoordinatorInv(l, c)
    ensures WithinLimits(l, c)
  {
    InflightIsTotalGap(l, c);
    forall p ensures |PeerWindows(c, p)| <= l.maxActivePerPeer {
      assert CountOf(c, p) == |PeerWindows(c, p)|;
    }
    forall id | id in c.windows ensures |c.windows[id].chunks| <= l.maxInflightChunks {
      assert WindowInv(l, c.windows[id]);
    }
  }

  /** From an idle coordinator every run of any length stays exact and within its limits, and in
      every open window the chunks of every entry lie end to end from its acknowledged to its
      next offset, with the durable offset never ahead of the acknowledged one. */
  lemma EveryRunKeepsAccounting(l: Limits, ops: seq<Op>)
    requires ValidLimits(l)
    ensures CoordinatorInv(l, IDLE)
    ensures var c := Run(l, IDLE, ops);
      && WithinLimits(l, c)
      && forall id, e :: id in c.windows && e in c.windows[id].next ==> EntryInv(c.windows[id], e)
  {
    IdleInv(l);
    var c := Run(l, IDLE, ops);
    InvWithinLimits(l, c);
    forall id, e | id in c.windows && e in c.windows[id].next ensures EntryInv(c.windows[id], e) {
      assert WindowInv(l, c.windows[id]);
    }
  }

  /** Unacknowledged bytes of one entry. */
  ghost function Gap(w: Window): nat -> int {
    (e: nat) => if e in w.next && e in w.acked then w.next[e] as int - w.acked[e] as int else 0 as int
  }

  ghost function WindowGap(ws: map<TransferId, Window>): TransferId -> int {
    id => if id in ws then Sum(ws[id].next.Keys, Gap(ws[id])) else 0
  }

  ghost function OfBytes(chunks: seq<Chunk>): nat -> int {
    (e: nat) => Bytes(Of(chunks, e)) as int
  }

  /** The bytes a window holds in flight are exactly the gaps between sent and acknowledged. */
  lemma BytesAreGaps(l: Limits, w: Window)
    requires WindowInv(l, w)
    ensures Bytes(w.chunks) == Sum(w.next.Keys, Gap(w))
  {
    SumOfEntries(w.chunks, w.next.Keys);
    forall e | e in w.next.Keys ensures OfBytes(w.chunks)(e) == Gap(w)(e) {
      assert EntryInv(w, e);
      TilesBounds(Of(w.chunks, e), w.acked[e], w.next[e]);
    }
    SumSame(w.next.Keys, OfBytes(w.chunks), Gap(w));
  }

  lemma {:induction false} SumOfEntries(chunks: seq<Chunk>, keys: set<nat>)
    requires forall c :: c in chunks ==> c.entry in keys
    ensures Bytes(chunks) == Sum(keys, OfBytes(chunks))
  {
    if chunks == [] {
      SumZero(keys, OfBytes(chunks));
    } else {
      SumOfEntries(chunks[1..], keys);
      SumChange(keys, OfBytes(chunks[1..]), OfBytes(chunks), chunks[0].entry);
    }
  }
}
