/** One transfer end to end: the sender's window, the payload channel, the receiver's batcher and
    the acknowledgement channel. Both channels are FIFO, as on the one socket the two sides share. */
module FlowChannels {
  import opened Common
  import opened FlowWindow
  import opened AckBatching

  datatype System = System(w: Window, data: seq<Chunk>, b: Batcher, acks: seq<Ack>)

  /** What the resume plan says of one file. */
  datatype PlanFile = PlanFile(entry: nat, durable: nat, completed: bool)

  /** The files of the transfer: their sizes, and which of them the receiver already has complete. */
  datatype Files = Files(size: nat -> nat, done: set<nat>)

  datatype Event =
    | Send(entry: int, offset: int, payload: seq<Byte>, now: real, inflight: int)
    | Deliver(durable: Option<int>, state: ReceiverState, now: real)
    | Poll(state: ReceiverState, now: real)
    | Flush(entry: int, state: ReceiverState)
    | Durable(entry: int, offset: int, state: ReceiverState)
    | AckArrives

  // ---------------------------------------------------------------- both ends start from one plan

  /** The sender's side of the plan: a baseline for every unfinished file with durable bytes. */
  function ResumeWindow(w: Window, plan: seq<PlanFile>): Window
    decreases |plan|
  {
    if plan == [] then w
    else
      var f := plan[|plan| - 1];
      var rest := ResumeWindow(w, plan[..|plan| - 1]);
      if !f.completed && f.durable > 0 then InitializeResume(rest, f.entry, f.durable).0 else rest
  }

  /** The receiver's side: progress for every file that has durable bytes or is complete. */
  function ResumeBatcher(b: Batcher, plan: seq<PlanFile>): Batcher
    decreases |plan|
  {
    if plan == [] then b
    else
      var f := plan[|plan| - 1];
      var rest := ResumeBatcher(b, plan[..|plan| - 1]);
      if f.completed || f.durable > 0 then RestoreEntry(rest, f.entry, f.durable, f.durable).0 else rest
  }

  function Completed(plan: seq<PlanFile>): set<nat> {
    set f | f in plan && f.completed :: f.entry
  }

  ghost predicate PlanOk(plan: seq<PlanFile>, size: nat -> nat) {
    && (forall i, j :: 0 <= i < j < |plan| ==> plan[i].entry != plan[j].entry)
    && (forall f :: f in plan ==> f.entry <= MAX_ENTRY_INDEX && f.durable <= size(f.entry) <= MAX_LOGICAL_OFFSET)
  }

  function Started(id: TransferId, peer: Peer, plan: seq<PlanFile>): System {
    System(ResumeWindow(OpenWindow(id, peer), plan), [], ResumeBatcher(Batcher(id, map[], []), plan), [])
  }

  // ---------------------------------------------------------------- steps

  /** The sequential source: it stays inside the file, never touches a completed one, and turns to
      another file only when every file it started has been sent to its end. */
  ghost predicate MaySend(f: Files, w: Window, entry: int, offset: int, length: nat) {
    && entry >= 0 && entry !in f.done && offset + length <= f.size(entry)
    && forall e :: e in w.payloadEntries && e != entry && e in w.next ==> w.next[e] == f.size(e)
  }

  ghost function Next(l: Limits, f: Files, s: System, ev: Event): System
    requires BatcherOk(s.b) && s.w.acked.Keys <= s.w.durable.Keys
  {
    match ev
    case Send(entry, offset, payload, now, inflight) =>
      if MaySend(f, s.w, entry, offset, |payload|) then
        var (w, _, r) := TrackSent(l, s.w, inflight, entry, offset, payload, now);
        if r == Done then s.(w := w, data := s.data + [w.chunks[|w.chunks| - 1]]) else s
      else s
    case Deliver(durable, state, now) => if s.data == [] then s else Delivered(l, f, s, durable, state, now)
    case Poll(state, now) =>
      var (b, acks) := PollFrom(l, s.b, 0, state, now);
      s.(b := b, acks := s.acks + acks)
    case Flush(entry, state) => Replied(s, AckBatching.Flush(s.b, entry, state))
    case Durable(entry, offset, state) => Replied(s, RecordDurable(s.b, entry, offset, state))
    case AckArrives => if s.w.closed || s.acks == [] then s else s.(w := Answered(s.w, s.acks[0]), acks := s.acks[1..])
  }

  /** What the sender's reader does with an acknowledgement: one the window refuses breaks the channel, and the
      window is aborted. A broken channel is not read again. */
  function Answered(w: Window, a: Ack): Window
    requires w.acked.Keys <= w.durable.Keys
  {
    if AckWellFormed(a) && AckWindow(w, a).1.AckApplied? then AckWindow(w, a).0 else Aborted(w)
  }

  function Aborted(w: Window): Window {
    w.(chunks := [], closed := true)
  }

  function Replied(s: System, r: (Batcher, Reply)): System {
    s.(b := r.0, acks := if r.1.Sent? then s.acks + [r.1.ack] else s.acks)
  }

  /** The receiver verifies the next chunk; a chunk it rejects is not consumed. */
  function Delivered(l: Limits, f: Files, s: System, durable: Option<int>, state: ReceiverState, now: real): System
    requires s.data != []
  {
    var c := s.data[0];
    var r := RecordVerified(l, s.b, c.entry, c.offset, c.size, durable, c.end == f.size(c.entry), state, now);
    Replied(s.(data := if r.1.Rejected? then s.data else s.data[1..]), r)
  }

  // ---------------------------------------------------------------- the invariant, entry by entry

  /** `v` cuts the chunks of `e` between two of them. */
  ghost predicate Cut(chunks: seq<Chunk>, e: nat, v: int, hi: int) {
    Tiles(Retained(chunks, e, v), v, hi)
  }

  /** The acknowledgements of `e` on their way move forward, cut by cut, from (v, d) to (v1, d1). */
  ghost predicate Chain(acks: seq<Ack>, e: nat, chunks: seq<Chunk>, hi: int, v: int, d: int, v1: int, d1: int) {
    if acks == [] then v <= v1 && d <= d1
    else if acks[0].entry != e then Chain(acks[1..], e, chunks, hi, v, d, v1, d1)
    else
      && v <= acks[0].verified && d <= acks[0].durable && Cut(chunks, e, acks[0].verified, hi)
      && Chain(acks[1..], e, chunks, hi, acks[0].verified, acks[0].durable, v1, d1)
  }

  /** The last offset acknowledged for `e`, whether it has arrived or not. */
  function Last(acks: seq<Ack>, e: nat, v: int): int {
    if acks == [] then v else Last(acks[1..], e, if acks[0].entry == e then acks[0].verified else v)
  }

  function Seen(b: Batcher, e: nat, v: nat): AckEntry {
    if e in b.entries then b.entries[e] else NewEntry(v, 0)
  }

  /** What the receiver has verified but not acknowledged since `last`. */
  ghost predicate Pending(l: Limits, f: Files, x: AckEntry, e: nat, chunks: seq<Chunk>, last: int) {
    && x.pendingBytes == x.verified - last < l.ackBytes
    && x.pendingChunks == |Retained(chunks, e, last)| - |Retained(chunks, e, x.verified)| < l.ackChunks
    && (x.fileComplete ==> x.verified == f.size(e))
    && (x.verified == f.size(e) ==> x.pendingChunks == 0)
  }

  /** The view of one entry: `chunks` are its unacknowledged chunks, `data` those not yet delivered. */
  ghost predicate Lane(l: Limits, f: Files, e: nat, chunks: seq<Chunk>, data: seq<Chunk>, x: AckEntry,
                       acks: seq<Ack>, acked: nat, durable: nat, hi: nat)
  {
    && hi <= f.size(e)
    && Cut(chunks, e, x.verified, hi)
    && data == Retained(chunks, e, x.verified)
    && Chain(acks, e, chunks, hi, acked, durable, x.verified, x.durable)
    && Pending(l, f, x, e, chunks, Last(acks, e, acked))
  }

  ghost predicate LaneOf(l: Limits, f: Files, s: System, e: nat)
    requires e in s.w.next && e in s.w.acked && e in s.w.durable
  {
    Lane(l, f, e, Of(s.w.chunks, e), Of(s.data, e), Seen(s.b, e, s.w.acked[e]), s.acks,
         s.w.acked[e], s.w.durable[e], s.w.next[e])
  }

  predicate ChunkOk(c: Chunk) {
    c.entry <= MAX_ENTRY_INDEX && 0 < c.size == |c.payload| <= MAX_BINARY_PAYLOAD_BYTES && c.end == c.offset + c.size <= MAX_LOGICAL_OFFSET
  }

  predicate AckOk(f: Files, w: Window, a: Ack) {
    AckWellFormed(a) && a.transferId == w.id && (a.entry in w.next || a.entry in f.done)
  }

  /** Entries the window does not know are complete ones the batcher never has pending. */
  ghost predicate Strangers(f: Files, w: Window, b: Batcher) {
    && (forall e :: e in b.entries && e !in w.next ==> e in f.done && b.entries[e].pendingSince.None?)
    && (forall e :: e in w.next ==> e !in f.done)
  }

  predicate Unfinished(f: Files, w: Window, e: nat) {
    e in w.payloadEntries && e in w.next && w.next[e] != f.size(e)
  }

  /** At most one started file is unfinished. */
  ghost predicate Sequential(f: Files, w: Window) {
    && (forall c :: c in w.chunks ==> c.entry in w.payloadEntries)
    && (forall e, g :: Unfinished(f, w, e) && Unfinished(f, w, g) ==> e == g)
  }

  ghost predicate Lanes(l: Limits, f: Files, s: System)
    requires s.w.next.Keys == s.w.acked.Keys == s.w.durable.Keys
  {
    forall e {:trigger LaneOf(l, f, s, e)} :: e in s.w.next ==> LaneOf(l, f, s, e)
  }

  ghost predicate Good(l: Limits, f: Files, s: System) {
    && ValidLimits(l) && WindowInv(l, s.w) && !s.w.closed && s.b.id == s.w.id && BatcherOk(s.b)
    && Strangers(f, s.w, s.b) && Sequential(f, s.w)
    && (forall c :: c in s.data ==> ChunkOk(c) && c.entry in s.w.next)
    && (forall a :: a in s.acks ==> AckOk(f, s.w, a))
    && Lanes(l, f, s)
  }

  /** After the sender's window closed, the payload and acknowledgements still under way agree with the window
      `w` as it would be had it stayed open. */
  ghost predicate Behind(l: Limits, f: Files, s: System, w: Window) {
    Good(l, f, s.(w := w)) && w.id == s.w.id
  }

  /** The two ends agree; a closed window holds nothing. */
  ghost predicate Agree(l: Limits, f: Files, s: System) {
    if s.w.closed then s.w.chunks == [] && s.w.acked.Keys <= s.w.durable.Keys && exists w :: Behind(l, f, s, w)
    else Good(l, f, s)
  }

  // ---------------------------------------------------------------- chunks and cuts

  lemma {:induction false} RetainedTwice(chunks: seq<Chunk>, e: nat, v: int, w: int)
    requires v <= w
    ensures Retained(Retained(chunks, e, v), e, w) == Retained(chunks, e, w)
  {
    if chunks != [] {
      RetainedTwice(chunks[1..], e, v, w);
    }
  }

  lemma {:induction false} RetainedAppend(chunks: seq<Chunk>, c: Chunk, e: nat, v: int)
    ensures Retained(chunks + [c], e, v) == Retained(chunks, e, v) + if Covered(c, e, v) then [] else [c]
  {
    if chunks != [] {
      assert (chunks + [c])[1..] == chunks[1..] + [c];
      RetainedAppend(chunks[1..], c, e, v);
    }
  }

  /** The first chunk past a cut starts at it, and its end is the next cut. */
  lemma CutHead(chunks: seq<Chunk>, e: nat, v: int, hi: int)
    requires Cut(chunks, e, v, hi) && Retained(chunks, e, v) != []
    requires forall c :: c in chunks ==> c.entry == e
    ensures var past := Retained(chunks, e, v);
      && past[0].offset == v < past[0].end <= hi
      && Cut(chunks, e, past[0].end, hi) && Retained(chunks, e, past[0].end) == past[1..]
  {
    var past := Retained(chunks, e, v);
    var c := past[0];
    TilesBounds(past, v, hi);
    TilesBounds(past[1..], c.end, hi);
    RetainedOf(chunks, e, v, e);
    RetainedTwice(chunks, e, v, c.end);
    RetainedNone(past[1..], e, c.end);
  }

  /** Every cut of a tiling is one of its chunk boundaries. */
  lemma {:induction false} CutIsBoundary(chunks: seq<Chunk>, e: nat, lo: int, hi: int, v: int)
    requires Tiles(chunks, lo, hi) && Cut(chunks, e, v, hi) && lo <= v
    ensures v == lo || exists c :: c in chunks && c.end == v
  {
    if chunks != [] && v != lo {
      assert Covered(chunks[0], e, v);
      if v != chunks[0].end {
        CutIsBoundary(chunks[1..], e, chunks[0].end, hi, v);
      }
    }
  }

  // ---------------------------------------------------------------- chains of acknowledgements

  lemma {:induction false} ChainRaise(acks: seq<Ack>, e: nat, chunks: seq<Chunk>, hi: int,
                                      v: int, d: int, v1: int, d1: int, v2: int, d2: int)
    requires Chain(acks, e, chunks, hi, v, d, v1, d1) && v1 <= v2 && d1 <= d2
    ensures Chain(acks, e, chunks, hi, v, d, v2, d2)
  {
    if acks == [] {
    } else if acks[0].entry != e {
      ChainRaise(acks[1..], e, chunks, hi, v, d, v1, d1, v2, d2);
    } else {
      ChainRaise(acks[1..], e, chunks, hi, acks[0].verified, acks[0].durable, v1, d1, v2, d2);
    }
  }

  lemma {:induction false} ChainAppend(acks: seq<Ack>, a: Ack, e: nat, chunks: seq<Chunk>, hi: int,
                                       v: int, d: int, v1: int, d1: int)
    requires Chain(acks, e, chunks, hi, v, d, v1, d1)
    requires a.entry == e ==> a.verified == v1 && a.durable == d1 && Cut(chunks, e, v1, hi)
    ensures Chain(acks + [a], e, chunks, hi, v, d, v1, d1)
    ensures Last(acks + [a], e, v) == if a.entry == e then a.verified else Last(acks, e, v)
  {
    if acks == [] {
      assert acks + [a] == [a] && [a][1..] == [];
    } else {
      assert (acks + [a])[1..] == acks[1..] + [a];
      if acks[0].entry != e {
        ChainAppend(acks[1..], a, e, chunks, hi, v, d, v1, d1);
      } else {
        ChainAppend(acks[1..], a, e, chunks, hi, acks[0].verified, acks[0].durable, v1, d1);
      }
    }
  }

  /** Every acknowledgement under way stays a cut when one more chunk is sent. */
  lemma {:induction false} ChainSend(acks: seq<Ack>, e: nat, chunks: seq<Chunk>, c: Chunk, hi: int,
                                     v: int, d: int, v1: int, d1: int)
    requires Chain(acks, e, chunks, hi, v, d, v1, d1) && v1 <= hi
    requires c.entry == e && c.offset == hi && ChunkOk(c)
    ensures Chain(acks, e, chunks + [c], c.end, v, d, v1, d1) && v <= Last(acks, e, v) <= v1
  {
    if acks == [] {
    } else if acks[0].entry != e {
      ChainSend(acks[1..], e, chunks, c, hi, v, d, v1, d1);
    } else {
      ChainSend(acks[1..], e, chunks, c, hi, acks[0].verified, acks[0].durable, v1, d1);
      CutSend(chunks, c, e, acks[0].verified, hi);
    }
  }

  lemma CutSend(chunks: seq<Chunk>, c: Chunk, e: nat, v: int, hi: int)
    requires Cut(chunks, e, v, hi) && v <= hi && c.offset == hi && ChunkOk(c)
    ensures Cut(chunks + [c], e, v, c.end)
    ensures Retained(chunks + [c], e, v) == Retained(chunks, e, v) + [c]
  {
    RetainedAppend(chunks, c, e, v);
    TilesAppend(Retained(chunks, e, v), c, v, hi);
  }

  /** Releasing up to `u` keeps every later acknowledgement a cut. */
  lemma {:induction false} ChainRelease(acks: seq<Ack>, e: nat, chunks: seq<Chunk>, hi: int,
                                        v: int, d: int, v1: int, d1: int, u: int)
    requires Chain(acks, e, chunks, hi, v, d, v1, d1) && u <= v
    ensures Chain(acks, e, Retained(chunks, e, u), hi, v, d, v1, d1) && v <= Last(acks, e, v) <= v1
  {
    if acks == [] {
    } else if acks[0].entry != e {
      ChainRelease(acks[1..], e, chunks, hi, v, d, v1, d1, u);
    } else {
      ChainRelease(acks[1..], e, chunks, hi, acks[0].verified, acks[0].durable, v1, d1, u);
      RetainedTwice(chunks, e, u, acks[0].verified);
    }
  }

  // ---------------------------------------------------------------- one entry, step by step

  lemma LaneSend(l: Limits, f: Files, e: nat, chunks: seq<Chunk>, data: seq<Chunk>, x: AckEntry,
                 acks: seq<Ack>, acked: nat, durable: nat, hi: nat, c: Chunk)
    requires Lane(l, f, e, chunks, data, x, acks, acked, durable, hi) && x.verified <= hi
    requires c.entry == e && c.offset == hi && ChunkOk(c) && c.end <= f.size(e)
    requires ChainOk(e, chunks, hi, x, acks, acked)
    ensures Lane(l, f, e, chunks + [c], data + [c], x, acks, acked, durable, c.end)
  {
    CutSend(chunks, c, e, x.verified, hi);
    ChainSend(acks, e, chunks, c, hi, acked, durable, x.verified, x.durable);
    CutSend(chunks, c, e, Last(acks, e, acked), hi);
  }

  ghost predicate ChainOk(e: nat, chunks: seq<Chunk>, hi: nat, x: AckEntry, acks: seq<Ack>, acked: nat) {
    Cut(chunks, e, Last(acks, e, acked), hi) && acked <= Last(acks, e, acked) <= x.verified
  }

  lemma {:induction false} LastIsCut(acks: seq<Ack>, e: nat, chunks: seq<Chunk>, hi: int, v: int, d: int, v1: int, d1: int)
    requires Chain(acks, e, chunks, hi, v, d, v1, d1) && Cut(chunks, e, v, hi)
    ensures Cut(chunks, e, Last(acks, e, v), hi) && v <= Last(acks, e, v) <= v1
  {
    if acks != [] {
      if acks[0].entry == e {
        LastIsCut(acks[1..], e, chunks, hi, acks[0].verified, acks[0].durable, v1, d1);
      } else {
        LastIsCut(acks[1..], e, chunks, hi, v, d, v1, d1);
      }
    }
  }

  /** The lane of a file whose first chunk is sent without a baseline. */
  lemma LaneStart(l: Limits, f: Files, e: nat, acks: seq<Ack>, c: Chunk)
    requires ValidLimits(l) && c.entry == e && ChunkOk(c) && c.end <= f.size(e)
    requires forall a :: a in acks ==> a.entry != e
    ensures Lane(l, f, e, [c], [c], NewEntry(c.offset, 0), acks, c.offset, 0, c.end)
  {
    TilesAppend([], c, c.offset, c.offset);
    assert [] + [c] == [c];
    ChainNone(acks, e, [c], c.end, c.offset, 0);
  }

  lemma {:induction false} ChainNone(acks: seq<Ack>, e: nat, chunks: seq<Chunk>, hi: int, v: int, d: int)
    requires forall a :: a in acks ==> a.entry != e
    ensures Chain(acks, e, chunks, hi, v, d, v, d) && Last(acks, e, v) == v
  {
    if acks != [] {
      ChainNone(acks[1..], e, chunks, hi, v, d);
    }
  }

  /** The lane after the receiver verified one more chunk, before it decides whether to acknowledge. */
  lemma LaneRecord(l: Limits, f: Files, e: nat, chunks: seq<Chunk>, data: seq<Chunk>, x: AckEntry,
                   acks: seq<Ack>, acked: nat, durable: nat, hi: nat, x': AckEntry)
    requires Lane(l, f, e, chunks, data, x, acks, acked, durable, hi) && data != []
    requires forall c :: c in chunks ==> c.entry == e
    requires x'.verified == x.verified + data[0].size && data[0].end == data[0].offset + data[0].size
    requires x.durable <= x'.durable
    ensures data[0].offset == x.verified < data[0].end == x'.verified <= hi
    ensures Cut(chunks, e, x'.verified, hi) && data[1..] == Retained(chunks, e, x'.verified)
    ensures Chain(acks, e, chunks, hi, acked, durable, x'.verified, x'.durable)
    ensures |Retained(chunks, e, Last(acks, e, acked))| - |Retained(chunks, e, x'.verified)| == x.pendingChunks + 1
  {
    CutHead(chunks, e, x.verified, hi);
    ChainRaise(acks, e, chunks, hi, acked, durable, x.verified, x.durable, x'.verified, x'.durable);
  }

  /** The lane after the receiver acknowledged everything it verified. */
  lemma LaneEmit(l: Limits, f: Files, e: nat, chunks: seq<Chunk>, data: seq<Chunk>, x: AckEntry,
                 acks: seq<Ack>, acked: nat, durable: nat, hi: nat, a: Ack)
    requires ValidLimits(l) && hi <= f.size(e) && Cut(chunks, e, x.verified, hi) && data == Retained(chunks, e, x.verified)
    requires Chain(acks, e, chunks, hi, acked, durable, x.verified, x.durable)
    requires a.entry == e && a.verified == x.verified && a.durable == x.durable
    requires x.fileComplete ==> x.verified == f.size(e)
    requires x.pendingBytes == 0 && x.pendingChunks == 0
    ensures Lane(l, f, e, chunks, data, x, acks + [a], acked, durable, hi)
  {
    ChainAppend(acks, a, e, chunks, hi, acked, durable, x.verified, x.durable);
  }

  /** An acknowledgement of another entry does not touch the lane. */
  lemma LaneOther(l: Limits, f: Files, e: nat, chunks: seq<Chunk>, data: seq<Chunk>, x: AckEntry,
                  acks: seq<Ack>, acked: nat, durable: nat, hi: nat, a: Ack)
    requires Lane(l, f, e, chunks, data, x, acks, acked, durable, hi) && a.entry != e
    ensures Lane(l, f, e, chunks, data, x, acks + [a], acked, durable, hi)
  {
    ChainAppend(acks, a, e, chunks, hi, acked, durable, x.verified, x.durable);
  }

  /** The lane after its first acknowledgement arrived and released what it covers. */
  lemma LaneAck(l: Limits, f: Files, e: nat, chunks: seq<Chunk>, data: seq<Chunk>, x: AckEntry,
                acks: seq<Ack>, acked: nat, durable: nat, hi: nat)
    requires Lane(l, f, e, chunks, data, x, acks, acked, durable, hi)
    requires acks != [] && acks[0].entry == e && acks[0].verified >= 0 && acks[0].durable >= 0
    ensures Lane(l, f, e, Retained(chunks, e, acks[0].verified), data, x, acks[1..], acks[0].verified, acks[0].durable, hi)
  {
    var u := acks[0].verified;
    ChainRelease(acks[1..], e, chunks, hi, u, acks[0].durable, x.verified, x.durable, u);
    RetainedTwice(chunks, e, u, x.verified);
    RetainedTwice(chunks, e, u, Last(acks[1..], e, u));
  }

  // ---------------------------------------------------------------- the whole system, step by step

  lemma LaneBounds(l: Limits, f: Files, e: nat, chunks: seq<Chunk>, data: seq<Chunk>, x: AckEntry,
                   acks: seq<Ack>, acked: nat, durable: nat, hi: nat)
    requires Lane(l, f, e, chunks, data, x, acks, acked, durable, hi) && Tiles(chunks, acked, hi)
    ensures x.verified <= hi && ChainOk(e, chunks, hi, x, acks, acked)
  {
    TilesBounds(Retained(chunks, e, x.verified), x.verified, hi);
    TilesBounds(chunks, acked, hi);
    RetainedNone(chunks, e, acked);
    LastIsCut(acks, e, chunks, hi, acked, durable, x.verified, x.durable);
  }

  lemma OnlyOf(chunks: seq<Chunk>, e: nat)
    ensures forall c :: c in Of(chunks, e) ==> c.entry == e
  {
    forall c | c in Of(chunks, e) ensures c.entry == e {
      OfMember(chunks, c, e);
    }
  }

  lemma VerifiedWithinSent(l: Limits, f: Files, s: System, e: nat)
    requires Good(l, f, s) && e in s.w.next
    ensures e in s.w.acked && e in s.w.durable
    ensures var x := Seen(s.b, e, s.w.acked[e]);
      && LaneOf(l, f, s, e) && EntryInv(s.w, e) && x.verified <= s.w.next[e]
      && ChainOk(e, Of(s.w.chunks, e), s.w.next[e], x, s.acks, s.w.acked[e])
  {
    hide Lane, ChainOk, BatcherOk, Strangers, Sequential, AckOk, ChunkOk;
    assert LaneOf(l, f, s, e) && EntryInv(s.w, e);
    LaneBounds(l, f, e, Of(s.w.chunks, e), Of(s.data, e), Seen(s.b, e, s.w.acked[e]), s.acks,
               s.w.acked[e], s.w.durable[e], s.w.next[e]);
  }

  lemma SentLane(l: Limits, f: Files, s: System, entry: nat, offset: nat, payload: seq<Byte>, now: real, e: nat)
    requires Good(l, f, s) && MaySend(f, s.w, entry, offset, |payload|) && PayloadOk(l, entry, offset, payload)
    requires entry in s.w.next ==> offset == s.w.next[entry]
    requires e in s.w.next || e == entry
    ensures var w := Tracked(s.w, entry, offset, payload, now);
      e in w.next && e in w.acked && e in w.durable && LaneOf(l, f, s.(w := w, data := s.data + [w.chunks[|w.chunks| - 1]]), e)
  {
    hide Good, Lane, Tiles;
    var w := Tracked(s.w, entry, offset, payload, now);
    var c := w.chunks[|w.chunks| - 1];
    OfAppend(s.w.chunks, c, e);
    OfAppend(s.data, c, e);
    if e in s.w.next {
      VerifiedWithinSent(l, f, s, e);
      if e == entry {
        LaneSend(l, f, e, Of(s.w.chunks, e), Of(s.data, e), Seen(s.b, e, s.w.acked[e]), s.acks,
                 s.w.acked[e], s.w.durable[e], s.w.next[e], c);
      }
    } else {
      NothingOf(l, f, s, e);
      assert [] + [c] == [c];
      LaneStart(l, f, e, s.acks, c);
    }
  }

  /** A file neither started nor complete has nothing under way. */
  lemma NothingOf(l: Limits, f: Files, s: System, e: nat)
    requires Good(l, f, s) && e !in s.w.next && e !in f.done
    ensures ValidLimits(l) && Of(s.w.chunks, e) == [] && Of(s.data, e) == [] && e !in s.b.entries
    ensures e !in s.w.acked && e !in s.w.durable
    ensures forall a :: a in s.acks ==> a.entry != e
  {
    NoneOf(s.w.chunks, e);
    NoneOf(s.data, e);
    hide Lanes, BatcherOk, Sequential, ValidLimits;
    forall a | a in s.acks ensures a.entry != e {
      assert AckOk(f, s.w, a);
    }
  }

  lemma SentSequential(f: Files, w: Window, entry: nat, offset: nat, payload: seq<Byte>, now: real)
    requires Sequential(f, w) && MaySend(f, w, entry, offset, |payload|)
    ensures Sequential(f, Tracked(w, entry, offset, payload, now))
  {
    var w' := Tracked(w, entry, offset, payload, now);
    forall e | Unfinished(f, w', e) ensures e == entry {
    }
  }

  function WithSent(s: System, entry: nat, offset: nat, payload: seq<Byte>, now: real): System {
    var w := Tracked(s.w, entry, offset, payload, now);
    s.(w := w, data := s.data + [w.chunks[|w.chunks| - 1]])
  }

  lemma SentLanes(l: Limits, f: Files, s: System, entry: nat, offset: nat, payload: seq<Byte>, now: real)
    requires Good(l, f, s) && MaySend(f, s.w, entry, offset, |payload|) && PayloadOk(l, entry, offset, payload)
    requires entry in s.w.next ==> offset == s.w.next[entry]
    ensures var s' := WithSent(s, entry, offset, payload, now);
      s'.w.next.Keys == s'.w.acked.Keys == s'.w.durable.Keys && Lanes(l, f, s')
  {
    var s' := WithSent(s, entry, offset, payload, now);
    hide LaneOf, BatcherOk, Sequential, MaySend, Strangers, PayloadOk;
    forall e | e in s'.w.next ensures LaneOf(l, f, s', e) {
      SentLane(l, f, s, entry, offset, payload, now, e);
    }
  }

  lemma SentGood(l: Limits, f: Files, s: System, entry: nat, offset: nat, payload: seq<Byte>, now: real)
    requires Good(l, f, s) && MaySend(f, s.w, entry, offset, |payload|) && PayloadOk(l, entry, offset, payload)
    requires entry in s.w.next ==> offset == s.w.next[entry]
    requires |s.w.chunks| < l.maxInflightChunks
    ensures Good(l, f, WithSent(s, entry, offset, payload, now))
  {
    var s' := WithSent(s, entry, offset, payload, now);
    TrackedKeepsInv(l, s.w, entry, offset, payload, now);
    SentSequential(f, s.w, entry, offset, payload, now);
    SentLanes(l, f, s, entry, offset, payload, now);
    hide LaneOf, Lanes, WindowInv, BatcherOk, AckWellFormed, Sequential;
    assert ChunkOk(s'.data[|s.data|]);
  }

  lemma SendKeepsGood(l: Limits, f: Files, s: System, entry: int, offset: int, payload: seq<Byte>, now: real, inflight: int)
    requires Good(l, f, s)
    ensures Good(l, f, Next(l, f, s, Event.Send(entry, offset, payload, now, inflight)))
  {
    var s' := Next(l, f, s, Event.Send(entry, offset, payload, now, inflight));
    hide Good, MaySend, Tracked;
    if s' != s {
      SentGood(l, f, s, entry, offset, payload, now);
    }
  }

  /** A receiver step about entry `e` only. */
  ghost predicate OnlyEntry(s: System, s': System, e: nat) {
    && s'.w == s.w && s'.b.id == s.b.id
    && (forall g :: g != e ==> (g in s'.b.entries <==> g in s.b.entries))
    && (forall g :: g != e && g in s.b.entries ==> s'.b.entries[g] == s.b.entries[g])
    && (s'.data == s.data || (s.data != [] && s.data[0].entry == e && s'.data == s.data[1..]))
    && (s'.acks == s.acks || (s'.acks != [] && s'.acks == s.acks + [Newest(s')] && Newest(s').entry == e))
  }

  function Newest(s: System): Ack
    requires s.acks != []
  {
    s.acks[|s.acks| - 1]
  }

  lemma OtherLane(l: Limits, f: Files, s: System, s': System, e: nat, g: nat)
    requires s.w.next.Keys == s.w.acked.Keys == s.w.durable.Keys && Lanes(l, f, s)
    requires OnlyEntry(s, s', e) && g in s.w.next && g != e
    ensures LaneOf(l, f, s', g)
  {
    assert LaneOf(l, f, s, g);
    assert Of(s'.data, g) == Of(s.data, g);
    if s'.acks != s.acks {
      LaneOther(l, f, g, Of(s.w.chunks, g), Of(s.data, g), Seen(s.b, g, s.w.acked[g]), s.acks,
                s.w.acked[g], s.w.durable[g], s.w.next[g], Newest(s'));
    }
  }

  lemma ReceiverGood(l: Limits, f: Files, s: System, s': System, e: nat)
    requires Good(l, f, s) && OnlyEntry(s, s', e)
    requires BatcherOk(s'.b) && Strangers(f, s.w, s'.b)
    requires e in s.w.next ==> LaneOf(l, f, s', e)
    requires s'.acks != s.acks ==> AckOk(f, s.w, Newest(s'))
    ensures Good(l, f, s')
  {
    assert s.w.next.Keys == s.w.acked.Keys == s.w.durable.Keys;
    hide LaneOf, WindowInv, BatcherOk, Strangers, Sequential, ChunkOk, AckOk;
    forall g | g in s'.w.next ensures LaneOf(l, f, s', g) {
      if g != e {
        OtherLane(l, f, s, s', e, g);
      }
    }
  }

  // ---------------------------------------------------------------- the receiver acknowledges

  function WithAck(s: System, e: nat, state: ReceiverState): System
    requires e in s.b.entries
  {
    s.(b := Emitted(s.b, e), acks := s.acks + [AckFor(s.b, e, state)])
  }

  ghost predicate MayEmit(f: Files, s: System, e: nat) {
    e in s.b.entries && (e in s.w.next || e in f.done)
  }

  /** What is left to prove about entry `e` before its acknowledgement restores the invariant. */
  ghost predicate LaneBody(l: Limits, f: Files, s: System, e: nat)
    requires e in s.w.next && e in s.w.acked && e in s.w.durable
  {
    var x := Seen(s.b, e, s.w.acked[e]);
    var chunks := Of(s.w.chunks, e);
    && s.w.next[e] <= f.size(e) && Cut(chunks, e, x.verified, s.w.next[e]) && Of(s.data, e) == Retained(chunks, e, x.verified)
    && Chain(s.acks, e, chunks, s.w.next[e], s.w.acked[e], s.w.durable[e], x.verified, x.durable)
    && (x.fileComplete ==> x.verified == f.size(e))
  }

  lemma EmittedLane(l: Limits, f: Files, s: System, e: nat, state: ReceiverState)
    requires ValidLimits(l) && e in s.b.entries && e in s.w.next && e in s.w.acked && e in s.w.durable
    requires LaneBody(l, f, s, e)
    ensures LaneOf(l, f, WithAck(s, e, state), e)
  {
    var x := Emitted(s.b, e).entries[e];
    LaneEmit(l, f, e, Of(s.w.chunks, e), Of(s.data, e), x, s.acks, s.w.acked[e], s.w.durable[e], s.w.next[e], AckFor(s.b, e, state));
  }

  lemma EmitGood(l: Limits, f: Files, s: System, e: nat, state: ReceiverState)
    requires Good(l, f, s) && MayEmit(f, s, e)
    ensures Good(l, f, WithAck(s, e, state))
  {
    var s' := WithAck(s, e, state);
    EmitKeepsOk(s.b, e, state);
    assert e in s.w.next ==> LaneOf(l, f, s, e);
    hide WindowInv, BatcherOk, Sequential, ChunkOk, AckWellFormed, Lane, LaneBody;
    if e in s.w.next {
      BodyOf(l, f, s, e);
      EmittedLane(l, f, s, e, state);
    }
    assert Newest(s') == AckFor(s.b, e, state);
    ReceiverGood(l, f, s, s', e);
  }

  lemma BodyOf(l: Limits, f: Files, s: System, e: nat)
    requires e in s.w.next && e in s.w.acked && e in s.w.durable && LaneOf(l, f, s, e)
    ensures LaneBody(l, f, s, e)
  {
  }

  lemma {:induction false} PollGood(l: Limits, f: Files, s: System, i: nat, state: ReceiverState, now: real)
    requires Good(l, f, s) && i <= |s.b.order|
    ensures var (b, acks) := PollFrom(l, s.b, i, state, now); Good(l, f, s.(b := b, acks := s.acks + acks))
    decreases |s.b.order| - i
  {
    if i == |s.b.order| {
      assert s.acks + [] == s.acks;
    } else {
      var e := s.b.order[i];
      PolledEntry(l, f, s, e);
      hide Good, BatcherOk, Emitted, AckFor;
      if Overdue(l, s.b.entries[e], now) {
        EmitGood(l, f, s, e, state);
        PollGood(l, f, WithAck(s, e, state), i + 1, state, now);
        SameOrder(s.b, e);
        assert forall acks :: s.acks + [AckFor(s.b, e, state)] + acks == s.acks + ([AckFor(s.b, e, state)] + acks);
      } else {
        PollGood(l, f, s, i + 1, state, now);
      }
    }
  }

  lemma SameOrder(b: Batcher, e: nat)
    requires e in b.entries
    ensures Emitted(b, e).order == b.order && Emitted(b, e).entries.Keys == b.entries.Keys
  {
  }

  lemma PolledEntry(l: Limits, f: Files, s: System, e: nat)
    requires Good(l, f, s) && e in s.b.order
    ensures BatcherOk(s.b) && e in s.b.entries
    ensures forall g :: g in s.b.order ==> g in s.b.entries
    ensures s.b.entries[e].pendingSince.Some? ==> e in s.w.next
  {
  }

  lemma FlushGood(l: Limits, f: Files, s: System, entry: int, state: ReceiverState)
    requires Good(l, f, s)
    ensures Good(l, f, Replied(s, AckBatching.Flush(s.b, entry, state)))
  {
    if entry in s.b.entries && s.b.entries[entry].pendingSince.Some? {
      hide WindowInv, BatcherOk, Sequential, Lanes, AckOk;
      EmitGood(l, f, s, entry, state);
    }
  }

  function Raised(s: System, e: nat, durable: nat): System
    requires e in s.b.entries
  {
    s.(b := s.b.(entries := s.b.entries[e := s.b.entries[e].(durable := durable)]))
  }

  lemma RaisedLane(l: Limits, f: Files, s: System, e: nat, durable: nat)
    requires e in s.w.next && e in s.w.acked && e in s.w.durable && LaneOf(l, f, s, e)
    requires e in s.b.entries && s.b.entries[e].durable <= durable
    ensures LaneOf(l, f, Raised(s, e, durable), e)
  {
    var x := s.b.entries[e];
    ChainRaise(s.acks, e, Of(s.w.chunks, e), s.w.next[e], s.w.acked[e], s.w.durable[e],
               x.verified, x.durable, x.verified, durable);
  }

  lemma RaisedGood(l: Limits, f: Files, s: System, e: nat, durable: nat)
    requires Good(l, f, s) && e in s.b.entries && s.b.entries[e].durable <= durable <= s.b.entries[e].verified
    ensures Good(l, f, Raised(s, e, durable))
  {
    assert EntryOk(s.b.entries[e]);
    PutKeepsOk(s.b, e, s.b.entries[e].(durable := durable));
    assert e in s.w.next ==> LaneOf(l, f, s, e);
    hide WindowInv, BatcherOk, Sequential, AckOk, LaneOf;
    if e in s.w.next {
      RaisedLane(l, f, s, e, durable);
    }
    ReceiverGood(l, f, s, Raised(s, e, durable), e);
  }

  lemma DurableGood(l: Limits, f: Files, s: System, entry: int, durable: int, state: ReceiverState)
    requires Good(l, f, s)
    ensures Good(l, f, Replied(s, RecordDurable(s.b, entry, durable, state)))
  {
    if entry in s.b.entries && s.b.entries[entry].durable <= durable <= s.b.entries[entry].verified {
      RaisedGood(l, f, s, entry, durable);
      MayEmitDurable(l, f, s, entry);
      hide Good, Emitted;
      EmitGood(l, f, Raised(s, entry, durable), entry, state);
    }
  }

  lemma MayEmitDurable(l: Limits, f: Files, s: System, e: nat)
    requires Good(l, f, s) && e in s.b.entries
    ensures MayEmit(f, s, e)
  {
  }

  // ---------------------------------------------------------------- a chunk is delivered

  /** The receiver's entry for a chunk it sees for the first time starts where the sender's does. */
  lemma SeenLane(l: Limits, f: Files, s: System)
    requires Good(l, f, s) && s.data != []
    ensures var c := s.data[0]; var b := AckBatching.Seen(s.b, c.entry, c.offset);
      && c.entry in s.w.next && c.entry in s.w.acked && c.offset == b.entries[c.entry].verified
      && b.entries[c.entry] == Seen(s.b, c.entry, s.w.acked[c.entry])
      && Good(l, f, s.(b := b))
  {
    var c := s.data[0];
    var e := c.entry;
    assert LaneOf(l, f, s, e);
    DataHead(s.data);
    OnlyOf(s.w.chunks, e);
    CutHead(Of(s.w.chunks, e), e, Seen(s.b, e, s.w.acked[e]).verified, s.w.next[e]);
    var s' := s.(b := AckBatching.Seen(s.b, e, c.offset));
    if e !in s.b.entries {
      assert ChunkOk(c);
      PutKeepsOk(s.b, e, NewEntry(c.offset, 0));
      assert LaneOf(l, f, s', e);
      hide WindowInv, BatcherOk, Sequential, AckOk, LaneOf;
      ReceiverGood(l, f, s, s', e);
    }
  }

  lemma DataHead(data: seq<Chunk>)
    requires data != []
    ensures Of(data, data[0].entry) == [data[0]] + Of(data[1..], data[0].entry)
  {
  }

  /** The system once the receiver has taken the next chunk in, before it decides to acknowledge. */
  function Taken(f: Files, s: System, durable: nat, now: real): System
    requires s.data != [] && s.data[0].entry in s.b.entries
  {
    var c := s.data[0];
    var x := Recorded(s.b.entries[c.entry], c.size, durable, c.end == f.size(c.entry), now);
    s.(data := s.data[1..], b := s.b.(entries := s.b.entries[c.entry := x]))
  }

  lemma TakenBody(l: Limits, f: Files, s: System, durable: nat, now: real)
    requires Good(l, f, s) && s.data != [] && s.data[0].entry in s.b.entries
    requires s.b.entries[s.data[0].entry].durable <= durable
    ensures var e := s.data[0].entry; var s' := Taken(f, s, durable, now);
      && e in s.w.next && e in s.w.acked && e in s.w.durable && LaneBody(l, f, s', e)
      && (!DueNow(l, s'.b.entries[e]) ==> LaneOf(l, f, s', e))
  {
    var c := s.data[0];
    var e := c.entry;
    assert LaneOf(l, f, s, e) && ChunkOk(c);
    DataHead(s.data);
    OnlyOf(s.w.chunks, e);
    hide WindowInv, BatcherOk, Sequential, AckOk, Strangers;
    LaneRecord(l, f, e, Of(s.w.chunks, e), Of(s.data, e), s.b.entries[e], s.acks, s.w.acked[e],
               s.w.durable[e], s.w.next[e], Taken(f, s, durable, now).b.entries[e]);
  }

  lemma TakenOk(l: Limits, f: Files, s: System, durable: nat, now: real)
    requires Good(l, f, s) && s.data != [] && s.data[0].entry in s.b.entries
    requires Contiguous(s.b.entries[s.data[0].entry], s.data[0].offset, s.data[0].size, durable)
    ensures var e := s.data[0].entry; var s' := Taken(f, s, durable, now);
      && e <= MAX_ENTRY_INDEX && OnlyEntry(s, s', e) && BatcherOk(s'.b) && Strangers(f, s.w, s'.b)
  {
    var e := s.data[0].entry;
    assert ChunkOk(s.data[0]);
    hide WindowInv, Sequential, AckOk, Lanes;
    PutKeepsOk(s.b, e, Taken(f, s, durable, now).b.entries[e]);
  }

  lemma TakenSilent(l: Limits, f: Files, s: System, durable: nat, now: real)
    requires Good(l, f, s) && s.data != [] && s.data[0].entry in s.b.entries
    requires Contiguous(s.b.entries[s.data[0].entry], s.data[0].offset, s.data[0].size, durable)
    requires !DueNow(l, Taken(f, s, durable, now).b.entries[s.data[0].entry])
    ensures Good(l, f, Taken(f, s, durable, now))
  {
    hide Good, BatcherOk, LaneOf, LaneBody, Strangers, Taken, DueNow;
    TakenBody(l, f, s, durable, now);
    TakenOk(l, f, s, durable, now);
    TakenFrame(f, s, durable, now);
    ReceiverGood(l, f, s, Taken(f, s, durable, now), s.data[0].entry);
  }

  lemma TakenFrame(f: Files, s: System, durable: nat, now: real)
    requires s.data != [] && s.data[0].entry in s.b.entries
    ensures var s' := Taken(f, s, durable, now);
      s'.w == s.w && s'.acks == s.acks && s'.b.id == s.b.id && s.data[0].entry in s'.b.entries
  {
  }

  lemma AckIsAboutEntry(f: Files, s: System, s': System, e: nat, state: ReceiverState)
    requires OnlyEntry(s, s', e) && e in s'.b.entries && s'.acks == s.acks && Strangers(f, s.w, s'.b)
    ensures OnlyEntry(s, WithAck(s', e, state), e) && Strangers(f, s.w, Emitted(s'.b, e))
    ensures Newest(WithAck(s', e, state)) == AckFor(s'.b, e, state)
  {
    assert s.acks + [AckFor(s'.b, e, state)] == WithAck(s', e, state).acks;
  }

  lemma TakenAcked(l: Limits, f: Files, s: System, durable: nat, state: ReceiverState, now: real)
    requires Good(l, f, s) && s.data != [] && s.data[0].entry in s.b.entries
    requires Contiguous(s.b.entries[s.data[0].entry], s.data[0].offset, s.data[0].size, durable)
    ensures Good(l, f, WithAck(Taken(f, s, durable, now), s.data[0].entry, state))
  {
    var e := s.data[0].entry;
    var s' := Taken(f, s, durable, now);
    assert ValidLimits(l) && s.b.id == s.w.id;
    hide Good, BatcherOk, LaneOf, LaneBody, Taken, OnlyEntry, Strangers, Emitted, ValidLimits, AckWellFormed;
    TakenBody(l, f, s, durable, now);
    TakenOk(l, f, s, durable, now);
    TakenFrame(f, s, durable, now);
    EmittedLane(l, f, s', e, state);
    EmitKeepsOk(s'.b, e, state);
    AckIsAboutEntry(f, s, s', e, state);
    ReceiverGood(l, f, s, WithAck(s', e, state), e);
  }

  /** A chunk the receiver accepts is taken in, and acknowledged when that is due. */
  lemma DeliveredIsTaken(l: Limits, f: Files, s: System, durable: Option<int>, state: ReceiverState, now: real)
    requires s.data != [] && ProgressOk(s.data[0].entry, s.data[0].offset, s.data[0].size, durable, s.data[0].end == f.size(s.data[0].entry))
    ensures var c := s.data[0]; var s0 := s.(b := AckBatching.Seen(s.b, c.entry, c.offset));
      var x := s0.b.entries[c.entry];
      var d: int := if durable.Some? then durable.value else x.durable;
      Delivered(l, f, s, durable, state, now) ==
        if !Contiguous(x, c.offset, c.size, d) then s0
        else if DueNow(l, Taken(f, s0, d, now).b.entries[c.entry]) then WithAck(Taken(f, s0, d, now), c.entry, state)
        else Taken(f, s0, d, now)
  {
    hide Contiguous, ProgressOk, DueNow, Recorded, Emitted;
  }

  lemma DeliverGood(l: Limits, f: Files, s: System, durable: Option<int>, state: ReceiverState, now: real)
    requires Good(l, f, s) && s.data != []
    ensures Good(l, f, Delivered(l, f, s, durable, state, now))
  {
    var c := s.data[0];
    SeenLane(l, f, s);
    hide Good, Contiguous, DueNow, WithAck, Taken;
    if ProgressOk(c.entry, c.offset, c.size, durable, c.end == f.size(c.entry)) {
      DeliveredIsTaken(l, f, s, durable, state, now);
      hide Delivered;
      var s0 := s.(b := AckBatching.Seen(s.b, c.entry, c.offset));
      var x := s0.b.entries[c.entry];
      var d: int := if durable.Some? then durable.value else x.durable;
      if Contiguous(x, c.offset, c.size, d) {
        if DueNow(l, Taken(f, s0, d, now).b.entries[c.entry]) {
          TakenAcked(l, f, s0, d, state, now);
        } else {
          TakenSilent(l, f, s0, d, now);
        }
      }
    }
  }

  // ---------------------------------------------------------------- an acknowledgement arrives

  lemma ArrivedLane(l: Limits, f: Files, s: System, e: nat)
    requires Good(l, f, s) && s.acks != [] && s.acks[0].entry in s.w.next && e in s.w.next
    ensures AckWellFormed(s.acks[0])
    ensures var w := Released(s.w, s.acks[0], s.acks[0].verified);
      && e in w.next && e in w.acked && e in w.durable
      && LaneOf(l, f, s.(w := w, acks := s.acks[1..]), e)
  {
    var a := s.acks[0];
    assert AckOk(f, s.w, a) && LaneOf(l, f, s, e);
    hide WindowInv, BatcherOk, Sequential, Strangers;
    RetainedOf(s.w.chunks, a.entry, a.verified, e);
    if a.entry == e {
      LaneAck(l, f, e, Of(s.w.chunks, e), Of(s.data, e), Seen(s.b, e, s.w.acked[e]), s.acks,
              s.w.acked[e], s.w.durable[e], s.w.next[e]);
      FirstSeen(l, f, s, e);
    }
  }

  /** A first acknowledgement comes from an entry the batcher has, so its view does not move. */
  lemma FirstSeen(l: Limits, f: Files, s: System, e: nat)
    requires e in s.w.next && e in s.w.acked && e in s.w.durable && LaneOf(l, f, s, e)
    requires s.acks != [] && s.acks[0].entry == e && s.acks[0].verified >= 0
    ensures e !in s.b.entries ==> s.acks[0].verified == s.w.acked[e]
  {
    var x := Seen(s.b, e, s.w.acked[e]);
    ChainEnds(s.acks[1..], e, Of(s.w.chunks, e), s.w.next[e], s.acks[0].verified, s.acks[0].durable, x.verified, x.durable);
  }

  lemma {:induction false} ChainEnds(acks: seq<Ack>, e: nat, chunks: seq<Chunk>, hi: int, v: int, d: int, v1: int, d1: int)
    requires Chain(acks, e, chunks, hi, v, d, v1, d1)
    ensures v <= v1 && d <= d1
  {
    if acks != [] {
      if acks[0].entry != e {
        ChainEnds(acks[1..], e, chunks, hi, v, d, v1, d1);
      } else {
        ChainEnds(acks[1..], e, chunks, hi, acks[0].verified, acks[0].durable, v1, d1);
      }
    }
  }

  /** Which acknowledgement an open window takes: one of a file it knows, unless it declares the transfer
      completed before all payload is acknowledged, and for a file it does not know only a plain one. */
  predicate Acceptable(w: Window, a: Ack) {
    if a.entry in w.next then a.state != ReceiverState.Completed || Retained(w.chunks, a.entry, a.verified) == [] else a.state == Transferring
  }

  /** The acknowledgement at the head of the channel is applied exactly when it is acceptable. It drops
      unacknowledged payload only when its state closes the window. */
  lemma HeadIsApplied(l: Limits, f: Files, s: System)
    requires Good(l, f, s) && s.acks != []
    ensures AckWellFormed(s.acks[0]) && s.acks[0].transferId == s.w.id && s.w.acked.Keys <= s.w.durable.Keys
    ensures var a := s.acks[0]; var (w, r) := AckWindow(s.w, a);
      && (if Acceptable(s.w, a) then r.AckApplied? else r.AckRefused?)
      && (r.AckApplied? ==>
            && r.discardedBytes == (if Closing(a.state) then Bytes(Retained(s.w.chunks, a.entry, a.verified)) else 0)
            && w == if Closing(a.state) then Aborted(Arrived(s).w) else Arrived(s).w)
  {
    var a := s.acks[0];
    var e := a.entry;
    assert AckOk(f, s.w, a);
    if e in s.w.next {
      assert LaneOf(l, f, s, e) && EntryInv(s.w, e);
      hide BatcherOk, Sequential, Strangers, WindowInv, AckWellFormed, Pending;
      HeadBoundary(l, f, s, e);
    }
  }

  /** The first acknowledgement has arrived and released what it covers. */
  function Arrived(s: System): System
    requires s.acks != [] && AckWellFormed(s.acks[0])
  {
    var a := s.acks[0];
    s.(w := if a.entry in s.w.next then Released(s.w, a, a.verified) else s.w, acks := s.acks[1..])
  }

  lemma HeadBoundary(l: Limits, f: Files, s: System, e: nat)
    requires e in s.w.next && e in s.w.acked && e in s.w.durable && LaneOf(l, f, s, e) && EntryInv(s.w, e)
    requires s.acks != [] && s.acks[0].entry == e
    ensures s.w.acked[e] <= s.acks[0].verified && s.w.durable[e] <= s.acks[0].durable
    ensures Boundary(s.w.chunks, e, s.w.acked[e], s.acks[0].verified)
  {
    var v := s.acks[0].verified;
    CutIsBoundary(Of(s.w.chunks, e), e, s.w.acked[e], s.w.next[e], v);
    if v != s.w.acked[e] {
      var c :| c in Of(s.w.chunks, e) && c.end == v;
      OfMember(s.w.chunks, c, e);
    }
  }

  lemma ReleasedSequential(f: Files, w: Window, a: Ack, v: nat)
    requires Sequential(f, w) && a.entry >= 0 && a.durable >= 0
    ensures Sequential(f, Released(w, a, v))
  {
    RetainedOf(w.chunks, a.entry, v, a.entry);
    assert forall e :: Unfinished(f, Released(w, a, v), e) ==> Unfinished(f, w, e);
  }

  lemma ReleasedInv(l: Limits, f: Files, s: System)
    requires Good(l, f, s) && s.acks != [] && s.acks[0].entry in s.w.next && AckWellFormed(s.acks[0])
    ensures WindowInv(l, Released(s.w, s.acks[0], s.acks[0].verified))
  {
    var e := s.acks[0].entry;
    assert LaneOf(l, f, s, e) && EntryInv(s.w, e);
    HeadBoundary(l, f, s, e);
    hide BatcherOk, Sequential, Strangers, LaneOf, Tiles;
    ReleasedKeepsInv(l, s.w, s.acks[0], s.acks[0].verified);
  }

  lemma ArrivedLanes(l: Limits, f: Files, s: System)
    requires Good(l, f, s) && s.acks != []
    ensures AckWellFormed(s.acks[0])
    ensures var s' := Arrived(s); s'.w.next.Keys == s'.w.acked.Keys == s'.w.durable.Keys && Lanes(l, f, s')
  {
    var a := s.acks[0];
    assert AckOk(f, s.w, a);
    var s' := Arrived(s);
    hide BatcherOk, Sequential, AckWellFormed;
    forall e | e in s'.w.next ensures LaneOf(l, f, s', e) {
      if a.entry in s.w.next {
        ArrivedLane(l, f, s, e);
      } else {
        assert LaneOf(l, f, s, e);
      }
    }
  }

  lemma ArriveGood(l: Limits, f: Files, s: System)
    requires Good(l, f, s) && s.acks != []
    ensures AckWellFormed(s.acks[0]) && Good(l, f, Arrived(s)) && Arrived(s).w.id == s.w.id
  {
    assert AckOk(f, s.w, s.acks[0]);
    ArrivedLanes(l, f, s);
    if s.acks[0].entry in s.w.next {
      ReleasedInv(l, f, s);
      ReleasedSequential(f, s.w, s.acks[0], s.acks[0].verified);
    }
    hide Lanes, BatcherOk, AckWellFormed, WindowInv, Sequential;
    var s' := Arrived(s);
    assert forall a :: a in s'.acks ==> a in s.acks && AckOk(f, s.w, a);
    assert s'.w.next == s.w.next && s'.w.id == s.w.id && !s'.w.closed;
  }

  lemma AnsweredAgree(l: Limits, f: Files, s: System)
    requires Good(l, f, s) && s.acks != []
    ensures s.w.acked.Keys <= s.w.durable.Keys && Agree(l, f, s.(w := Answered(s.w, s.acks[0]), acks := s.acks[1..]))
  {
    HeadIsApplied(l, f, s);
    ArriveGood(l, f, s);
    var s' := s.(w := Answered(s.w, s.acks[0]), acks := s.acks[1..]);
    GoodKeys(l, f, Arrived(s));
    hide Good, AckWindow, AckWellFormed, Acceptable, Arrived;
    if s'.w.closed {
      AnsweredFrame(l, f, s);
      assert s'.(w := Arrived(s).w) == Arrived(s);
      assert Behind(l, f, s', Arrived(s).w);
    }
  }

  lemma AnsweredFrame(l: Limits, f: Files, s: System)
    requires s.acks != [] && s.w.acked.Keys <= s.w.durable.Keys && !s.w.closed && Answered(s.w, s.acks[0]).closed
    ensures var w := Answered(s.w, s.acks[0]); w.chunks == [] && w.acked.Keys <= w.durable.Keys && w.id == s.w.id
  {
    hide AckWellFormed, Boundary, Retained;
  }

  lemma GoodKeys(l: Limits, f: Files, s: System)
    requires Good(l, f, s)
    ensures BatcherOk(s.b) && s.w.acked.Keys == s.w.durable.Keys == s.w.next.Keys && !s.w.closed
  {
  }

  // ---------------------------------------------------------------- every step

  predicate AtReceiver(ev: Event) {
    !ev.Send? && !ev.AckArrives?
  }

  /** What the receiver does keeps agreement with the sender's window, which it does not touch. */
  lemma ReceiverKeepsGood(l: Limits, f: Files, s: System, ev: Event)
    requires Good(l, f, s) && AtReceiver(ev)
    ensures BatcherOk(s.b) && s.w.acked.Keys <= s.w.durable.Keys
    ensures Good(l, f, Next(l, f, s, ev))
  {
    GoodKeys(l, f, s);
    hide Good, BatcherOk;
    match ev
    case Deliver(durable, state, now) => if s.data != [] { DeliverGood(l, f, s, durable, state, now); }
    case Poll(state, now) => PollGood(l, f, s, 0, state, now);
    case Flush(entry, state) => FlushGood(l, f, s, entry, state);
    case Durable(entry, offset, state) => DurableGood(l, f, s, entry, offset, state);
    case _ =>
  }

  lemma SenderKeepsAgree(l: Limits, f: Files, s: System, ev: Event)
    requires Good(l, f, s) && !AtReceiver(ev)
    ensures BatcherOk(s.b) && s.w.acked.Keys <= s.w.durable.Keys
    ensures Agree(l, f, Next(l, f, s, ev))
  {
    GoodKeys(l, f, s);
    match ev
    case Send(entry, offset, payload, now, inflight) =>
      SendKeepsGood(l, f, s, entry, offset, payload, now, inflight);
      GoodKeys(l, f, Next(l, f, s, ev));
    case AckArrives => if s.acks != [] { AnsweredAgree(l, f, s); }
    case _ =>
  }

  lemma ClosedKeepsAgree(l: Limits, f: Files, s: System, w: Window, ev: Event)
    requires s.w.closed && s.w.chunks == [] && s.w.acked.Keys <= s.w.durable.Keys && Behind(l, f, s, w)
    ensures BatcherOk(s.b) && Agree(l, f, Next(l, f, s, ev)) && Next(l, f, s, ev).w == s.w
  {
    var t := s.(w := w);
    GoodKeys(l, f, t);
    var s' := Next(l, f, s, ev);
    if AtReceiver(ev) {
      ReceiverKeepsGood(l, f, t, ev);
      ReceiverAlone(l, f, s, w, ev);
      assert s'.(w := w) == Next(l, f, t, ev);
    }
    assert Behind(l, f, s', w);
  }

  lemma ReceiverAlone(l: Limits, f: Files, s: System, w: Window, ev: Event)
    requires BatcherOk(s.b) && s.w.acked.Keys <= s.w.durable.Keys && w.acked.Keys <= w.durable.Keys && AtReceiver(ev)
    ensures Next(l, f, s.(w := w), ev) == Next(l, f, s, ev).(w := w) && Next(l, f, s, ev).w == s.w
  {
    hide BatcherOk, RecordVerified, RecordDurable;
  }

  /** Every step of either end and of either channel keeps the two ends in agreement. */
  lemma StepKeepsAgree(l: Limits, f: Files, s: System, ev: Event)
    requires Agree(l, f, s)
    ensures BatcherOk(s.b) && s.w.acked.Keys <= s.w.durable.Keys
    ensures Agree(l, f, Next(l, f, s, ev))
  {
    hide Good, Next;
    if s.w.closed {
      var w :| Behind(l, f, s, w);
      ClosedKeepsAgree(l, f, s, w, ev);
    } else if AtReceiver(ev) {
      ReceiverKeepsGood(l, f, s, ev);
      GoodKeys(l, f, Next(l, f, s, ev));
    } else {
      SenderKeepsAgree(l, f, s, ev);
    }
  }

  ghost function Run(l: Limits, f: Files, s: System, events: seq<Event>): (r: System)
    requires Agree(l, f, s)
    ensures Agree(l, f, r)
    decreases |events|
  {
    if events == [] then s
    else StepKeepsAgree(l, f, s, events[0]); Run(l, f, Next(l, f, s, events[0]), events[1..])
  }

  // ---------------------------------------------------------------- both ends restored from one plan

  /** Nothing is under way, and both ends start every unfinished file at the same durable offset. */
  ghost predicate Restored(l: Limits, f: Files, s: System) {
    && WindowInv(l, s.w) && !s.w.closed && s.w.chunks == [] && s.w.payloadEntries == {}
    && BatcherOk(s.b) && s.b.id == s.w.id && s.data == [] && s.acks == []
    && Strangers(f, s.w, s.b)
    && forall e {:trigger SameStart(f, s, e)} :: e in s.w.next ==> SameStart(f, s, e)
  }

  ghost predicate SameStart(f: Files, s: System, e: nat) {
    && e in s.w.next && e in s.w.acked && e in s.w.durable && e in s.b.entries && s.w.next[e] <= f.size(e)
    && s.w.acked[e] == s.w.durable[e] == s.w.next[e] && s.b.entries[e] == NewEntry(s.w.next[e], s.w.next[e])
  }

  lemma RestoredGood(l: Limits, f: Files, s: System)
    requires ValidLimits(l) && Restored(l, f, s)
    ensures Good(l, f, s)
  {
    forall e | e in s.w.next ensures LaneOf(l, f, s, e) {
      assert SameStart(f, s, e);
      assert Of(s.w.chunks, e) == [] && Of(s.data, e) == [];
    }
  }

  function RestoreFile(s: System, p: PlanFile): System {
    s.(w := if !p.completed && p.durable > 0 then InitializeResume(s.w, p.entry, p.durable).0 else s.w,
       b := if p.completed || p.durable > 0 then RestoreEntry(s.b, p.entry, p.durable, p.durable).0 else s.b)
  }

  lemma RestoreSender(l: Limits, w: Window, p: PlanFile)
    requires WindowInv(l, w) && !w.closed && w.chunks == [] && w.payloadEntries == {} && p.entry !in w.next
    requires p.entry <= MAX_ENTRY_INDEX && p.durable <= MAX_LOGICAL_OFFSET
    ensures var (w', r) := InitializeResume(w, p.entry, p.durable);
      && WindowInv(l, w') && w'.id == w.id && !w'.closed && w'.chunks == [] && w'.payloadEntries == {}
      && w'.next == w.next[p.entry := p.durable] && w'.acked == w.acked[p.entry := p.durable]
      && w'.durable == w.durable[p.entry := p.durable]
  {
    InitializedInv(l, w, p.entry, p.durable);
  }

  lemma RestoreUnfinished(l: Limits, f: Files, s: System, p: PlanFile)
    requires Restored(l, f, s) && p.entry !in s.b.entries && p.entry !in s.w.next && p.entry !in f.done
    requires p.entry <= MAX_ENTRY_INDEX && p.durable <= f.size(p.entry) <= MAX_LOGICAL_OFFSET
    ensures Restored(l, f, s.(w := InitializeResume(s.w, p.entry, p.durable).0,
                              b := WithEntry(s.b, p.entry, NewEntry(p.durable, p.durable))))
  {
    hide WindowInv, BatcherOk, InitializeResume;
    RestoreSender(l, s.w, p);
    PutKeepsOk(s.b, p.entry, NewEntry(p.durable, p.durable));
    var s' := s.(w := InitializeResume(s.w, p.entry, p.durable).0, b := WithEntry(s.b, p.entry, NewEntry(p.durable, p.durable)));
    forall e | e in s'.w.next ensures SameStart(f, s', e) {
      assert e != p.entry ==> SameStart(f, s, e);
    }
  }

  lemma RestoreComplete(l: Limits, f: Files, s: System, p: PlanFile)
    requires Restored(l, f, s) && p.entry !in s.b.entries && p.entry !in s.w.next && p.entry in f.done
    requires p.entry <= MAX_ENTRY_INDEX && p.durable <= MAX_LOGICAL_OFFSET
    ensures Restored(l, f, s.(b := WithEntry(s.b, p.entry, NewEntry(p.durable, p.durable))))
  {
    PutKeepsOk(s.b, p.entry, NewEntry(p.durable, p.durable));
    var s' := s.(b := WithEntry(s.b, p.entry, NewEntry(p.durable, p.durable)));
    hide WindowInv, BatcherOk;
    forall e | e in s'.w.next ensures SameStart(f, s', e) {
      assert SameStart(f, s, e);
    }
  }

  lemma RestoreOne(l: Limits, f: Files, s: System, p: PlanFile)
    requires Restored(l, f, s) && p.entry !in s.b.entries && p.entry !in s.w.next
    requires p.entry <= MAX_ENTRY_INDEX && p.durable <= f.size(p.entry) <= MAX_LOGICAL_OFFSET
    requires p.completed <==> p.entry in f.done
    ensures Restored(l, f, RestoreFile(s, p))
  {
    hide Restored, InitializeResume, WithEntry;
    if p.completed {
      RestoreComplete(l, f, s, p);
    } else if p.durable > 0 {
      RestoreUnfinished(l, f, s, p);
    }
  }

  ghost predicate Planned(plan: seq<PlanFile>, e: nat) {
    exists i :: 0 <= i < |plan| && plan[i].entry == e
  }

  /** Nothing is tracked but what the plan names. */
  ghost predicate OnlyPlanned(s: System, plan: seq<PlanFile>) {
    forall e :: e in s.b.entries || e in s.w.next ==> Planned(plan, e)
  }

  lemma LastIsNew(plan: seq<PlanFile>, size: nat -> nat)
    requires PlanOk(plan, size) && plan != []
    ensures var n := |plan| - 1;
      && PlanOk(plan[..n], size) && !Planned(plan[..n], plan[n].entry) && Planned(plan, plan[n].entry)
      && (forall e :: Planned(plan[..n], e) ==> Planned(plan, e)) && (forall q :: q in plan[..n] ==> q in plan) && plan[n] in plan
  {
    var n := |plan| - 1;
    forall e | Planned(plan[..n], e) ensures Planned(plan, e) {
      var i :| 0 <= i < n && plan[..n][i].entry == e;
      assert plan[i].entry == e;
    }
  }

  lemma StartedOne(id: TransferId, peer: Peer, plan: seq<PlanFile>)
    requires plan != []
    ensures Started(id, peer, plan) == RestoreFile(Started(id, peer, plan[..|plan| - 1]), plan[|plan| - 1])
  {
    hide InitializeResume, RestoreEntry;
  }

  lemma {:induction false} StartedRestored(l: Limits, f: Files, id: TransferId, peer: Peer, plan: seq<PlanFile>)
    requires ValidLimits(l) && PlanOk(plan, f.size)
    requires forall p :: p in plan ==> (p.completed <==> p.entry in f.done)
    ensures Restored(l, f, Started(id, peer, plan)) && OnlyPlanned(Started(id, peer, plan), plan)
    decreases |plan|
  {
    if plan == [] {
      OpenedInv(l, id, peer);
    } else {
      hide Restored, Planned, Started, RestoreFile;
      var n := |plan| - 1;
      LastIsNew(plan, f.size);
      StartedRestored(l, f, id, peer, plan[..n]);
      var s0 := Started(id, peer, plan[..n]);
      StartedOne(id, peer, plan);
      RestoreOne(l, f, s0, plan[n]);
      RestoreAdds(s0, plan[n]);
    }
  }

  lemma RestoreAdds(s: System, p: PlanFile)
    ensures var s' := RestoreFile(s, p);
      forall e :: e in s'.b.entries || e in s'.w.next ==> e == p.entry || e in s.b.entries || e in s.w.next
  {
  }

  lemma SameFile(plan: seq<PlanFile>, size: nat -> nat, p: PlanFile, q: PlanFile)
    requires PlanOk(plan, size) && p in plan && q in plan && p.entry == q.entry
    ensures p == q
  {
    var i :| 0 <= i < |plan| && plan[i] == p;
    var j :| 0 <= j < |plan| && plan[j] == q;
  }

  lemma StartedIsGood(l: Limits, size: nat -> nat, id: TransferId, peer: Peer, plan: seq<PlanFile>)
    requires ValidLimits(l) && PlanOk(plan, size)
    ensures Good(l, Files(size, Completed(plan)), Started(id, peer, plan))
    ensures Agree(l, Files(size, Completed(plan)), Started(id, peer, plan))
  {
    var f := Files(size, Completed(plan));
    forall p | p in plan ensures p.completed <==> p.entry in f.done {
      if p.entry in f.done {
        var q :| q in plan && q.completed && q.entry == p.entry;
        SameFile(plan, size, p, q);
      }
    }
    StartedRestored(l, f, id, peer, plan);
    RestoredGood(l, f, Started(id, peer, plan));
  }

  // ---------------------------------------------------------------- what every run guarantees

  /** The durable offset reported with the next chunk neither regresses nor runs ahead of it. */
  predicate DurableInRange(s: System, durable: Option<int>)
    requires s.data != []
  {
    durable.Some? ==>
      && 0 <= durable.value <= s.data[0].end
      && (s.data[0].entry in s.b.entries ==> s.b.entries[s.data[0].entry].durable <= durable.value)
  }

  function ReplyToNext(l: Limits, f: Files, s: System, durable: Option<int>, state: ReceiverState, now: real): Reply
    requires s.data != []
  {
    var c := s.data[0];
    RecordVerified(l, s.b, c.entry, c.offset, c.size, durable, c.end == f.size(c.entry), state, now).1
  }

  /** The receiver accepts the next chunk, whether or not the sender still waits for its acknowledgement. */
  lemma NextChunkAccepted(l: Limits, f: Files, s: System, durable: Option<int>, state: ReceiverState, now: real)
    requires Agree(l, f, s) && s.data != [] && DurableInRange(s, durable)
    ensures !ReplyToNext(l, f, s, durable, state, now).Rejected?
  {
    hide Good, RecordVerified;
    if s.w.closed {
      var w :| Behind(l, f, s, w);
      NextIsContiguous(l, f, s.(w := w), durable, state, now);
    } else {
      NextIsContiguous(l, f, s, durable, state, now);
    }
  }

  lemma NextIsContiguous(l: Limits, f: Files, s: System, durable: Option<int>, state: ReceiverState, now: real)
    requires Good(l, f, s) && s.data != [] && DurableInRange(s, durable)
    ensures !ReplyToNext(l, f, s, durable, state, now).Rejected?
  {
    var c := s.data[0];
    var e := c.entry;
    SeenLane(l, f, s);
    assert ChunkOk(c) && LaneOf(l, f, s, e) && (e in s.b.entries ==> EntryOk(s.b.entries[e]));
    DataHead(s.data);
    OnlyOf(s.w.chunks, e);
    CutHead(Of(s.w.chunks, e), e, Seen(s.b, e, s.w.acked[e]).verified, s.w.next[e]);
    hide Good;
  }

  lemma AcksAreOk(l: Limits, f: Files, s: System)
    requires Agree(l, f, s)
    ensures forall a :: a in s.acks ==> AckWellFormed(a) && a.transferId == s.w.id
  {
    if s.w.closed {
      var w :| Behind(l, f, s, w);
      assert forall a :: a in s.acks ==> AckOk(f, w, a);
    } else {
      assert forall a :: a in s.acks ==> AckOk(f, s.w, a);
    }
  }

  /** From the same resume plan, over any interleaving of sending, delivery, batching, polling and
      acknowledging in any receiver states, under any load by other transfers: an open window applies the
      receiver's next acknowledgement exactly when it is acceptable, which every plain one is, and drops
      payload only when the receiver's state closes it; a closed window holds nothing; and the receiver
      accepts every chunk whose durable offset it reports in range. */
  lemma NoAckIsEverRefused(l: Limits, size: nat -> nat, id: TransferId, peer: Peer, plan: seq<PlanFile>, events: seq<Event>)
    requires ValidLimits(l) && PlanOk(plan, size)
    ensures Agree(l, Files(size, Completed(plan)), Started(id, peer, plan))
    ensures var f := Files(size, Completed(plan)); var s := Run(l, f, Started(id, peer, plan), events);
      && (forall a :: a in s.acks ==> AckWellFormed(a) && a.transferId == id)
      && (s.w.closed ==> s.w.chunks == [])
      && (!s.w.closed && s.acks != [] ==>
            && s.w.acked.Keys <= s.w.durable.Keys
            && var a := s.acks[0]; var r := AckWindow(s.w, a).1;
            && (if Acceptable(s.w, a) then r.AckApplied? else r.AckRefused?)
            && (r.AckApplied? ==> r.discardedBytes == if Closing(a.state) then Bytes(Retained(s.w.chunks, a.entry, a.verified)) else 0)
            && (a.state == Transferring ==> r.AckApplied? && r.discardedBytes == 0))
      && (s.data != [] ==> forall durable, state, now ::
            DurableInRange(s, durable) ==> !ReplyToNext(l, f, s, durable, state, now).Rejected?)
  {
    StartedIsGood(l, size, id, peer, plan);
    var f := Files(size, Completed(plan));
    var s := Run(l, f, Started(id, peer, plan), events);
    RunKeepsId(l, f, Started(id, peer, plan), events);
    StartedId(id, peer, plan);
    AcksAreOk(l, f, s);
    hide Good, AckWindow, AckWellFormed, ReplyToNext;
    if !s.w.closed && s.acks != [] {
      HeadIsApplied(l, f, s);
    }
    if s.data != [] {
      forall durable, state, now | DurableInRange(s, durable) ensures !ReplyToNext(l, f, s, durable, state, now).Rejected? {
        NextChunkAccepted(l, f, s, durable, state, now);
      }
    }
  }

  /** A receiver that only ever says it is receiving, as the one of the transport does, never closes the
      window: every one of its acknowledgements is applied and none drops payload. */
  lemma {:induction false} PlainAcksNeverClose(l: Limits, f: Files, s: System, events: seq<Event>)
    requires Good(l, f, s) && Agree(l, f, s) && (forall a :: a in s.acks ==> a.state == Transferring)
    requires forall ev :: ev in events ==> Plain(ev)
    ensures var r := Run(l, f, s, events); Good(l, f, r) && forall a :: a in r.acks ==> a.state == Transferring
    decreases |events|
  {
    GoodKeys(l, f, s);
    if events != [] {
      var s' := Next(l, f, s, events[0]);
      StepKeepsAgree(l, f, s, events[0]);
      PlainStep(l, f, s, events[0]);
      hide Good, Next, Agree;
      PlainAcksNeverClose(l, f, s', events[1..]);
    }
  }

  predicate Plain(ev: Event) {
    match ev
    case Send(_, _, _, _, _) => true
    case AckArrives => true
    case _ => ev.state == Transferring
  }

  lemma PlainStep(l: Limits, f: Files, s: System, ev: Event)
    requires Good(l, f, s) && (forall a :: a in s.acks ==> a.state == Transferring) && Plain(ev)
    ensures BatcherOk(s.b) && s.w.acked.Keys <= s.w.durable.Keys
    ensures var r := Next(l, f, s, ev); Good(l, f, r) && forall a :: a in r.acks ==> a.state == Transferring
  {
    GoodKeys(l, f, s);
    if AtReceiver(ev) {
      ReceiverKeepsGood(l, f, s, ev);
      hide Good, Contiguous, ProgressOk, DueNow;
      if ev.Poll? {
        PolledState(l, s.b, 0, ev.state, ev.now);
      }
    } else if ev.AckArrives? {
      if s.acks != [] {
        HeadIsApplied(l, f, s);
        ArriveGood(l, f, s);
        hide Good, AckWindow, AckWellFormed;
      }
    } else {
      SendKeepsGood(l, f, s, ev.entry, ev.offset, ev.payload, ev.now, ev.inflight);
      hide Good, MaySend, TrackSent;
    }
  }

  lemma {:induction false} PolledState(l: Limits, b: Batcher, i: nat, state: ReceiverState, now: real)
    requires i <= |b.order| && forall e :: e in b.order ==> e in b.entries
    ensures forall a :: a in PollFrom(l, b, i, state, now).1 ==> a.state == state
    decreases |b.order| - i
  {
    if i < |b.order| {
      var e := b.order[i];
      hide Overdue;
      PolledState(l, b, i + 1, state, now);
      PolledState(l, Emitted(b, e), i + 1, state, now);
    }
  }

  lemma {:induction false} RunKeepsId(l: Limits, f: Files, s: System, events: seq<Event>)
    requires Agree(l, f, s)
    ensures Run(l, f, s, events).w.id == s.w.id
    decreases |events|
  {
    if events != [] {
      StepKeepsAgree(l, f, s, events[0]);
      StepKeepsId(l, f, s, events[0]);
      RunKeepsId(l, f, Next(l, f, s, events[0]), events[1..]);
    }
  }

  lemma StepKeepsId(l: Limits, f: Files, s: System, ev: Event)
    requires BatcherOk(s.b) && s.w.acked.Keys <= s.w.durable.Keys
    ensures Next(l, f, s, ev).w.id == s.w.id
  {
    hide BatcherOk, AckWellFormed;
    if ev.AckArrives? && s.acks != [] && AckWellFormed(s.acks[0]) {
      AckFrame(s.w, s.acks[0]);
    }
  }

  lemma {:induction false} StartedId(id: TransferId, peer: Peer, plan: seq<PlanFile>)
    ensures Started(id, peer, plan).w.id == id
    decreases |plan|
  {
    if plan != [] {
      StartedId(id, peer, plan[..|plan| - 1]);
    }
  }

  /** Once both channels are empty, what the sender still counts as unacknowledged is less than one
      acknowledgement's worth, in chunks and in bytes. */
  lemma DrainedWindow(l: Limits, f: Files, s: System)
    requires Good(l, f, s) && s.data == [] && s.acks == []
    ensures |s.w.chunks| < l.ackChunks && Bytes(s.w.chunks) < l.ackBytes
  {
    if s.w.chunks != [] {
      var u := s.w.chunks[0].entry;
      forall c | c in s.w.chunks ensures c.entry == u {
        DrainedEntry(l, f, s, c.entry);
        DrainedEntry(l, f, s, u);
        OfMember(s.w.chunks, c, c.entry);
        OfMember(s.w.chunks, s.w.chunks[0], u);
        assert Unfinished(f, s.w, c.entry) && Unfinished(f, s.w, u);
      }
      AllOf(s.w.chunks, u);
      DrainedEntry(l, f, s, u);
    }
  }

  lemma DrainedEntry(l: Limits, f: Files, s: System, e: nat)
    requires Good(l, f, s) && s.data == [] && s.acks == [] && e in s.w.next
    ensures |Of(s.w.chunks, e)| < l.ackChunks && Bytes(Of(s.w.chunks, e)) < l.ackBytes
    ensures Of(s.w.chunks, e) != [] ==> s.w.next[e] != f.size(e)
  {
    var chunks := Of(s.w.chunks, e);
    assert LaneOf(l, f, s, e) && EntryInv(s.w, e);
    TilesBounds(chunks, s.w.acked[e], s.w.next[e]);
    RetainedNone(chunks, e, s.w.acked[e]);
    assert Of(s.data, e) == [];
  }

  lemma {:induction false} AllOf(chunks: seq<Chunk>, e: nat)
    requires forall c :: c in chunks ==> c.entry == e
    ensures Of(chunks, e) == chunks
  {
    if chunks != [] {
      AllOf(chunks[1..], e);
    }
  }

  /** A drained window never blocks a send: with a batch of chunks no larger than the window, and a batch of
      bytes that leaves room for the next payload beside the bytes of the other transfers, the next chunk
      is admitted. The two ends cannot wait for each other. */
  lemma DrainedWindowAdmits(l: Limits, size: nat -> nat, id: TransferId, peer: Peer, plan: seq<PlanFile>, events: seq<Event>,
                            entry: nat, offset: nat, payload: seq<Byte>, now: real, others: nat)
    requires ValidLimits(l) && PlanOk(plan, size) && l.ackChunks <= l.maxInflightChunks
    requires others + l.ackBytes + |payload| <= l.maxInflightBytes + 1
    ensures Agree(l, Files(size, Completed(plan)), Started(id, peer, plan))
    ensures var f := Files(size, Completed(plan)); var s := Run(l, f, Started(id, peer, plan), events);
      (s.data == [] && s.acks == [] && PayloadOk(l, entry, offset, payload) && !s.w.closed && (entry in s.w.next ==> offset == s.w.next[entry])) ==>
        TrackSent(l, s.w, others + Bytes(s.w.chunks), entry, offset, payload, now) ==
          (Tracked(s.w, entry, offset, payload, now), others + Bytes(s.w.chunks) + |payload|, Done)
  {
    hide Agree, Good, Run, Started, PlanOk, PayloadOk, Tracked, ValidLimits;
    DrainedWindowHasRoom(l, size, id, peer, plan, events);
  }

  /** The default limits are such limits: a transfer on its own never waits for an acknowledgement that the
      receiver will not send before the next chunk. */
  lemma DefaultLimitsAdmit(size: nat -> nat, id: TransferId, peer: Peer, plan: seq<PlanFile>, events: seq<Event>,
                           entry: nat, offset: nat, payload: seq<Byte>, now: real)
    requires PlanOk(plan, size) && PayloadOk(DEFAULT_LIMITS, entry, offset, payload)
    ensures Agree(DEFAULT_LIMITS, Files(size, Completed(plan)), Started(id, peer, plan))
    ensures var f := Files(size, Completed(plan)); var s := Run(DEFAULT_LIMITS, f, Started(id, peer, plan), events);
      (s.data == [] && s.acks == [] && !s.w.closed && (entry in s.w.next ==> offset == s.w.next[entry])) ==>
        TrackSent(DEFAULT_LIMITS, s.w, Bytes(s.w.chunks), entry, offset, payload, now).2 == Done
  {
    hide Agree, Good, Run, Started, PlanOk, Tracked;
    DrainedWindowAdmits(DEFAULT_LIMITS, size, id, peer, plan, events, entry, offset, payload, now, 0);
  }

  /** With limits whose acknowledgement batch is no larger than the window, a drained window always
      has room for another chunk as far as their number goes. */
  lemma DrainedWindowHasRoom(l: Limits, size: nat -> nat, id: TransferId, peer: Peer, plan: seq<PlanFile>, events: seq<Event>)
    requires ValidLimits(l) && PlanOk(plan, size) && l.ackChunks <= l.maxInflightChunks
    ensures Agree(l, Files(size, Completed(plan)), Started(id, peer, plan))
    ensures var s := Run(l, Files(size, Completed(plan)), Started(id, peer, plan), events);
      s.data == [] && s.acks == [] ==>
        && |s.w.chunks| < l.maxInflightChunks && |s.w.chunks| < l.ackChunks && Bytes(s.w.chunks) < l.ackBytes
  {
    StartedIsGood(l, size, id, peer, plan);
    var s := Run(l, Files(size, Completed(plan)), Started(id, peer, plan), events);
    if s.data == [] && s.acks == [] && !s.w.closed {
      DrainedWindow(l, Files(size, Completed(plan)), s);
    }
  }

  // ---------------------------------------------------------------- cumulative acknowledgements

  function ApplyAll(w: Window, acks: seq<Ack>): Window
    requires forall a :: a in acks ==> AckWellFormed(a)
    requires w.acked.Keys <= w.durable.Keys
    decreases |acks|
  {
    if acks == [] then w else ApplyAll(AckWindow(w, acks[0]).0, acks[1..])
  }

  /** The offset an acknowledgement brings entry `e` of the window to. */
  function Reached(w: Window, a: Ack): int
    requires a.entry in w.acked
  {
    if a.verified < w.acked[a.entry] then w.acked[a.entry] else a.verified
  }

  /** Settling at `v1` and then at `v2` is settling at `v2`. */
  lemma SettleTwice(w: Window, a: Ack, b: Ack, v1: nat, v2: nat)
    requires AckWellFormed(a) && AckWellFormed(b) && a.entry == b.entry && v1 <= v2
    requires !Closing(a.state) && !Closing(b.state)
    ensures Settle(Settle(w, a, v1).0, b, v2).0 == Settle(w, b, v2).0
  {
    RetainedTwice(w.chunks, a.entry, v1, v2);
  }

  /** A boundary past `v1` is still one after everything up to `v1` was released. */
  lemma BoundaryStays(chunks: seq<Chunk>, e: nat, current: nat, v1: nat, v2: nat)
    requires Boundary(chunks, e, current, v2) && current <= v1 <= v2
    ensures Boundary(Retained(chunks, e, v1), e, v1, v2)
  {
    RetainedOf(chunks, e, v1, e);
  }

  /** An acknowledgement makes every earlier one of the same entry redundant, refused or not. */
  lemma LaterSubsumesEarlier(w: Window, a: Ack, b: Ack)
    requires AckWellFormed(a) && AckWellFormed(b) && w.acked.Keys <= w.durable.Keys
    requires a.entry == b.entry && a.state == b.state && a.verified <= b.verified && a.durable <= b.durable
    requires !Closing(a.state) && AckWindow(w, b).1.AckApplied?
    ensures AckWindow(AckWindow(w, a).0, b).0 == AckWindow(w, b).0
    ensures AckWindow(AckWindow(w, a).0, b).1.AckApplied?
  {
    hide AckWellFormed, Boundary, Retained;
    var w1 := AckWindow(w, a).0;
    if w1 != w && !(a.verified < w.acked[a.entry] && a.state == Transferring) {
      var e: nat := a.entry;
      SettleTwice(w, a, b, Reached(w, a), Reached(w, b));
      BoundaryStays(w.chunks, e, w.acked[e], Reached(w, a), Reached(w, b));
    }
  }

  /** A run of acknowledgements of one entry that only moves forward leaves the window exactly as
      its last one alone would. */
  lemma {:induction false} LastAckAlone(w: Window, acks: seq<Ack>)
    requires acks != [] && (forall a :: a in acks ==> AckWellFormed(a)) && w.acked.Keys <= w.durable.Keys
    requires forall i, j :: 0 <= i < j < |acks| ==>
      && acks[i].entry == acks[j].entry && acks[i].state == acks[j].state
      && acks[i].verified <= acks[j].verified && acks[i].durable <= acks[j].durable
    requires !Closing(acks[0].state) && AckWindow(w, acks[|acks| - 1]).1.AckApplied?
    ensures ApplyAll(w, acks) == AckWindow(w, acks[|acks| - 1]).0
    decreases |acks|
  {
    hide AckWellFormed, Boundary;
    if |acks| > 1 {
      var last := acks[|acks| - 1];
      LaterSubsumesEarlier(w, acks[0], last);
      assert acks[0].state == acks[1].state;
      LastAckAlone(AckWindow(w, acks[0]).0, acks[1..]);
    }
  }
}
