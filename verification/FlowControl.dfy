/** The stateful flow-control objects. Every method runs under the coordinator's lock in the
    source, so each is one atomic step; a wait is one attempt that reports `WouldBlock`. */
module FlowControl {
  import opened Common
  import opened FlowWindow

  class SendWindow {
    const coordinator: FlowControlCoordinator
    const transferId: TransferId
    const peerIdentity: Peer
    var chunks: seq<Chunk>
    var nextOffsets: map<nat, nat>
    var ackedOffsets: map<nat, nat>
    var durableOffsets: map<nat, nat>
    var resumeOffsets: map<nat, nat>
    var payloadEntries: set<nat>
    var receiverState: ReceiverState
    var closed: bool

    constructor (coordinator: FlowControlCoordinator, id: TransferId, peer: Peer)
      ensures this.coordinator == coordinator && transferId == id && peerIdentity == peer
      ensures Abs() == OpenWindow(id, peer)
    {
      this.coordinator, transferId, peerIdentity := coordinator, id, peer;
      chunks, payloadEntries := [], {};
      nextOffsets, ackedOffsets, durableOffsets, resumeOffsets := map[], map[], map[], map[];
      receiverState, closed := Transferring, false;
    }

    ghost function Abs(): Window
      reads this
    {
      Window(transferId, peerIdentity, chunks, nextOffsets, ackedOffsets, durableOffsets,
             resumeOffsets, payloadEntries, receiverState, closed)
    }

    method InitializeResume(entry: int, offset: int) returns (r: Outcome)
      modifies this
      ensures Abs() == FlowWindow.InitializeResume(old(Abs()), entry, offset).0
      ensures r == FlowWindow.InitializeResume(old(Abs()), entry, offset).1
    {
      if !(0 <= entry <= MAX_ENTRY_INDEX) || !(0 <= offset <= MAX_LOGICAL_OFFSET) {
        return Refused;
      }
      if closed {
        return WindowClosed;
      }
      if entry in payloadEntries {
        return Refused;
      }
      if entry in resumeOffsets {
        if offset < resumeOffsets[entry] {
          return Refused;
        }
        return if offset != resumeOffsets[entry] then Refused else Done;
      }
      if entry in nextOffsets {
        return Refused;
      }
      resumeOffsets := resumeOffsets[entry := offset];
      nextOffsets := nextOffsets[entry := offset];
      ackedOffsets := ackedOffsets[entry := offset];
      durableOffsets := durableOffsets[entry := offset];
      return Done;
    }

    method TrackSent(entry: int, offset: int, payload: seq<Byte>, now: real) returns (r: Outcome)
      modifies this, coordinator`inflightBytes
      ensures (Abs(), coordinator.inflightBytes, r)
           == FlowWindow.TrackSent(coordinator.limits, old(Abs()), old(coordinator.inflightBytes),
                                   entry, offset, payload, now)
      ensures r != Refused <==>
        && 0 <= entry <= 199_999 && 0 <= offset && 0 < |payload| <= 4_194_304 && offset + |payload| <= 109_951_162_777_600
        && |payload| <= coordinator.limits.maxInflightBytes && (entry in old(nextOffsets) ==> offset == old(nextOffsets)[entry])
    {
      var size := |payload|;
      if !PayloadOk(coordinator.limits, entry, offset, payload) {
        return Refused;
      }
      if entry in nextOffsets && offset != nextOffsets[entry] {
        return Refused;
      }
      if closed {
        return WindowClosed;
      }
      if |chunks| >= coordinator.limits.maxInflightChunks
         || coordinator.inflightBytes + size > coordinator.limits.maxInflightBytes {
        return WouldBlock;
      }
      chunks := chunks + [Chunk(entry, offset, offset + size, payload, size, now)];
      coordinator.inflightBytes := coordinator.inflightBytes + size;
      nextOffsets := nextOffsets[entry := offset + size];
      if entry !in ackedOffsets {
        ackedOffsets := ackedOffsets[entry := offset];
      }
      if entry !in durableOffsets {
        durableOffsets := durableOffsets[entry := 0];
      }
      payloadEntries := payloadEntries + {entry};
      return Done;
    }

    /** The oldest unacknowledged chunk has waited for the configured acknowledgement timeout. */
    method CheckAckTimeout(now: real) returns (timedOut: bool, wasClosed: bool)
      ensures wasClosed == closed
      ensures timedOut <==> !closed && chunks != [] && now - chunks[0].sentAt >= coordinator.limits.ackTimeout
    {
      wasClosed := closed;
      timedOut := !closed && chunks != [] && now - chunks[0].sentAt >= coordinator.limits.ackTimeout;
    }

    /** Splits the chunks into those an acknowledgement covers and those that stay. */
    method SplitCovered(entry: nat, verified: int)
      returns (releasedChunks: nat, releasedBytes: nat, retained: seq<Chunk>)
      ensures retained == Retained(chunks, entry, verified)
      ensures releasedChunks == |chunks| - |retained|
      ensures releasedBytes == Bytes(chunks) - Bytes(retained)
    {
      releasedChunks, releasedBytes, retained := 0, 0, [];
      var i := 0;
      while i < |chunks|
        invariant 0 <= i <= |chunks|
        invariant retained + Retained(chunks[i..], entry, verified) == Retained(chunks, entry, verified)
        invariant releasedChunks + |retained| == i
        invariant releasedBytes + Bytes(retained) + Bytes(chunks[i..]) == Bytes(chunks)
      {
        var chunk := chunks[i];
        assert chunks[i..][1..] == chunks[i + 1..];
        if chunk.entry == entry && chunk.end <= verified {
          releasedChunks := releasedChunks + 1;
          releasedBytes := releasedBytes + chunk.size;
        } else {
          BytesAppend(retained, chunk);
          retained := retained + [chunk];
        }
        i := i + 1;
      }
      assert chunks[i..] == [];
    }

    method ApplyAck(ack: Ack) returns (r: AckOutcome)
      requires closed || WindowInv(coordinator.limits, Abs())
      requires !closed ==> peerIdentity in coordinator.peerCounts && coordinator.peerCounts[peerIdentity] > 0
      modifies this, coordinator`windows, coordinator`peerCounts, coordinator`inflightBytes
      ensures r.AckRefused? || r.AckClosed? || old(closed) ==>
        && Abs() == old(Abs()) && coordinator.inflightBytes == old(coordinator.inflightBytes)
        && coordinator.windows == old(coordinator.windows) && coordinator.peerCounts == old(coordinator.peerCounts)
      ensures AckWellFormed(ack) <==> AckInForm(ack)
      ensures !AckWellFormed(ack) ==> r.AckRefused?
      ensures AckWellFormed(ack) && ack.transferId != transferId ==>
        Abs() == old(Abs()) && r == AckApplied(0, 0, 0, receiverState)
      ensures r.AckClosed? <==> AckWellFormed(ack) && ack.transferId == transferId && old(closed)
      ensures AckWellFormed(ack) && ack.transferId == transferId && !old(closed) ==>
        (Abs(), r) == AckWindow(old(Abs()), ack)
      ensures r.AckApplied? ==>
        coordinator.inflightBytes == old(coordinator.inflightBytes) - r.releasedBytes - r.discardedBytes
      ensures if old(!closed) && closed then
                && coordinator.windows == old(coordinator.windows) - {transferId}
                && coordinator.peerCounts == WithoutPeer(old(coordinator.peerCounts), peerIdentity)
              else coordinator.windows == old(coordinator.windows) && coordinator.peerCounts == old(coordinator.peerCounts)
    {
      WellFormedIs(ack);
      hide AckInForm;
      if !AckWellFormed(ack) {
        return AckRefused;
      }
      if ack.transferId != transferId {
        return AckApplied(0, 0, 0, receiverState);
      }
      if closed {
        return AckClosed;
      }
      r := AbsorbAck(ack);
    }

    /** The part of `ApplyAck` that runs once the acknowledgement is known to be for this open window. */
    method AbsorbAck(ack: Ack) returns (r: AckOutcome)
      requires AckWellFormed(ack) && !closed && WindowInv(coordinator.limits, Abs())
      requires peerIdentity in coordinator.peerCounts && coordinator.peerCounts[peerIdentity] > 0
      modifies this, coordinator`windows, coordinator`peerCounts, coordinator`inflightBytes
      ensures (Abs(), r) == AckWindow(old(Abs()), ack)
      ensures coordinator.inflightBytes == old(coordinator.inflightBytes)
            - (if r.AckApplied? then r.releasedBytes + r.discardedBytes else 0)
      ensures if closed then
                && coordinator.windows == old(coordinator.windows) - {transferId}
                && coordinator.peerCounts == WithoutPeer(old(coordinator.peerCounts), peerIdentity)
              else coordinator.windows == old(coordinator.windows) && coordinator.peerCounts == old(coordinator.peerCounts)
    {
      if ack.entry !in ackedOffsets {
        return if ack.state == Transferring then AckApplied(0, 0, 0, ack.state) else AckRefused;
      }
      var current := ackedOffsets[ack.entry];
      if ack.durable < durableOffsets[ack.entry] {
        return AckRefused;
      }
      if ack.verified < current && ack.state == Transferring {
        durableOffsets := durableOffsets[ack.entry := ack.durable];
        return AckApplied(0, 0, 0, ack.state);
      }
      var verified := if ack.verified < current then current else ack.verified;
      var covered := WithinSent(ack.entry, current, verified);
      if !covered {
        return AckRefused;
      }
      hide WindowInv;
      r := Settle(ack, verified);
    }

    method Settle(ack: Ack, verified: nat) returns (r: AckOutcome)
      requires AckWellFormed(ack) && !closed
      requires peerIdentity in coordinator.peerCounts && coordinator.peerCounts[peerIdentity] > 0
      modifies this, coordinator`windows, coordinator`peerCounts, coordinator`inflightBytes
      ensures Abs() == FlowWindow.Settle(old(Abs()), ack, verified).0
      ensures r == FlowWindow.Settle(old(Abs()), ack, verified).1
      ensures coordinator.inflightBytes == old(coordinator.inflightBytes)
            - (if r.AckApplied? then r.releasedBytes + r.discardedBytes else 0)
      ensures if closed then
                && coordinator.windows == old(coordinator.windows) - {transferId}
                && coordinator.peerCounts == WithoutPeer(old(coordinator.peerCounts), peerIdentity)
              else coordinator.windows == old(coordinator.windows) && coordinator.peerCounts == old(coordinator.peerCounts)
    {
      hide Retained, Bytes;
      var releasedChunks, releasedBytes, retained := SplitCovered(ack.entry, verified);
      if ack.state == Completed && retained != [] {
        return AckRefused;
      }
      TakeOut(ack, verified, retained, releasedBytes);
      var discarded := 0;
      if Closing(ack.state) {
        discarded := Leave();
      }
      return AckApplied(releasedChunks, releasedBytes, discarded, ack.state);
    }

    /** What the acknowledgement covers leaves the window. */
    method TakeOut(ack: Ack, verified: nat, retained: seq<Chunk>, releasedBytes: nat)
      requires ack.entry >= 0 && ack.durable >= 0 && retained == Retained(chunks, ack.entry, verified)
      modifies this`chunks, this`ackedOffsets, this`durableOffsets, this`receiverState, coordinator`inflightBytes
      ensures Abs() == Released(old(Abs()), ack, verified)
      ensures coordinator.inflightBytes == old(coordinator.inflightBytes) - releasedBytes
    {
      hide Retained;
      chunks := retained;
      ackedOffsets := ackedOffsets[ack.entry := verified];
      durableOffsets := durableOffsets[ack.entry := ack.durable];
      coordinator.inflightBytes := coordinator.inflightBytes - releasedBytes;
      receiverState := ack.state;
    }

    /** The receiver ended this transfer: forget the window and what it still had in flight. */
    method Leave() returns (discarded: nat)
      requires !closed && peerIdentity in coordinator.peerCounts && coordinator.peerCounts[peerIdentity] > 0
      modifies this, coordinator`windows, coordinator`peerCounts, coordinator`inflightBytes
      ensures Abs() == old(Abs()).(chunks := [], closed := true)
      ensures discarded == Bytes(old(chunks))
      ensures coordinator.inflightBytes == old(coordinator.inflightBytes) - discarded
      ensures coordinator.windows == old(coordinator.windows) - {transferId}
      ensures coordinator.peerCounts == WithoutPeer(old(coordinator.peerCounts), peerIdentity)
    {
      coordinator.windows := coordinator.windows - {transferId};
      discarded := CloseLocked();
      coordinator.inflightBytes := coordinator.inflightBytes - discarded;
      coordinator.DropPeer(peerIdentity);
    }

    /** The three range checks of an acknowledgement: not past the last chunk of the entry, not past
        an entry with no chunk, and on a chunk boundary. */
    method WithinSent(entry: nat, current: nat, verified: int) returns (ok: bool)
      requires WindowInv(coordinator.limits, Abs()) && entry in ackedOffsets && current == ackedOffsets[entry]
      ensures ok <==> Boundary(chunks, entry, current, verified)
    {
      CandidateBounds(coordinator.limits, Abs(), entry, verified);
      var candidates := Of(chunks, entry);
      if candidates != [] && verified > candidates[|candidates| - 1].end {
        return false;
      }
      if candidates == [] && verified > current {
        return false;
      }
      var boundaries := {current} + set c | c in candidates :: c.end;
      return verified in boundaries;
    }

    method CloseLocked() returns (released: nat)
      modifies this
      ensures closed
      ensures old(closed) ==> released == 0 && Abs() == old(Abs())
      ensures !old(closed) ==> released == Bytes(old(chunks)) && Abs() == old(Abs()).(chunks := [], closed := true)
    {
      if closed {
        return 0;
      }
      released := 0;
      var i := 0;
      while i < |chunks|
        invariant 0 <= i <= |chunks|
        invariant released + Bytes(chunks[i..]) == Bytes(chunks)
      {
        assert chunks[i..][1..] == chunks[i + 1..];
        released := released + chunks[i].size;
        i := i + 1;
      }
      assert chunks[i..] == [];
      chunks, closed := [], true;
    }
  }

  /** Under the invariant the three range checks of an acknowledgement agree with `Boundary`. */
  lemma CandidateBounds(l: Limits, w: Window, e: nat, verified: int)
    requires WindowInv(l, w) && e in w.next
    ensures var candidates := Of(w.chunks, e);
      && (Boundary(w.chunks, e, w.acked[e], verified) <==>
            verified == w.acked[e] || exists c :: c in candidates && c.end == verified)
      && (candidates != [] && verified > candidates[|candidates| - 1].end ==> !Boundary(w.chunks, e, w.acked[e], verified))
      && (candidates == [] && verified > w.acked[e] ==> !Boundary(w.chunks, e, w.acked[e], verified))
  {
    assert EntryInv(w, e);
    TilesBounds(Of(w.chunks, e), w.acked[e], w.next[e]);
    forall c ensures c in Of(w.chunks, e) <==> c in w.chunks && c.entry == e {
      OfMember(w.chunks, c, e);
    }
  }

  class FlowControlCoordinator {
    const limits: Limits
    var windows: map<TransferId, SendWindow>
    var peerCounts: map<Peer, nat>
    var inflightBytes: int
    var closed: bool
    ghost var model: Coordinator

    ghost function Open(): set<SendWindow>
      reads this`windows
    {
      set id | id in windows :: windows[id]
    }

    /** The concrete fields say what `m` says, window by window. */
    ghost predicate Tied(m: Coordinator)
      reads this`windows, this`peerCounts, this`inflightBytes, this`closed, Open()
    {
      && windows.Keys == m.windows.Keys
      && (forall id :: id in windows ==> Same(windows[id], id, m.windows[id]))
      && peerCounts == m.peerCounts && inflightBytes == m.inflight && closed == m.closed
    }

    ghost predicate Same(w: SendWindow, id: TransferId, v: Window)
      reads w
    {
      w.transferId == id && w.coordinator == this && w.Abs() == v
    }

    ghost predicate Valid()
      reads this, Open()
    {
      Tied(model) && CoordinatorInv(limits, model)
    }

    ghost method Settled(next: Coordinator)
      requires windows.Keys == next.windows.Keys
      requires forall id :: id in windows ==> Same(windows[id], id, next.windows[id])
      requires peerCounts == next.peerCounts && inflightBytes == next.inflight && closed == next.closed
      requires CoordinatorInv(limits, next)
      modifies this`model
      ensures Valid() && model == next
    {
      hide CoordinatorInv, WindowInv;
      model := next;
    }

    lemma Tie(w: SendWindow)
      requires w.coordinator == this
      ensures Same(w, w.transferId, w.Abs())
    {
    }

    ghost predicate Has(w: SendWindow)
      reads this
    {
      w.transferId in windows && windows[w.transferId] == w
    }

    constructor (limits: Limits)
      requires ValidLimits(limits)
      ensures Valid() && model == IDLE && this.limits == limits
    {
      this.limits := limits;
      windows, peerCounts, inflightBytes, closed, model := map[], map[], 0, false, IDLE;
      new;
      IdleInv(limits);
    }

    method OpenTransfer(id: TransferId, peer: Peer) returns (window: SendWindow?, r: Outcome)
      requires Tied(model)
      modifies this`windows, this`peerCounts
      ensures r == FlowWindow.OpenTransfer(limits, old(model), id, peer).1
      ensures r == Refused <==> peer.name == "" || |peer.name| > 256 || id in old(windows)
      ensures r == Done <==>
        && 0 < |peer.name| <= 256 && id !in old(windows) && !closed && |old(windows)| < limits.maxActiveGlobal
        && (if peer in old(peerCounts) then old(peerCounts)[peer] else 0) < limits.maxActivePerPeer
      ensures r in {Done, Refused} || r == if closed then WindowClosed else WouldBlock
      ensures r != Done ==> window == null && windows == old(windows) && peerCounts == old(peerCounts)
      ensures r == Done ==>
        && window != null && fresh(window) && window.transferId == id && Same(window, id, OpenWindow(id, peer))
        && windows == old(windows)[id := window]
        && peerCounts == old(peerCounts)[peer := CountOf(old(model), peer) + 1]
    {
      hide Tied, FlowWindow.OpenTransfer;
      r := Admissible(id, peer);
      if r != Done {
        return null, r;
      }
      var created := new SendWindow(this, id, peer);
      windows := windows[id := created];
      peerCounts := peerCounts[peer := (if peer in peerCounts then peerCounts[peer] else 0) + 1];
      return created, Done;
    }

    /** Whether a transfer of this peer may be opened now. */
    method Admissible(id: TransferId, peer: Peer) returns (r: Outcome)
      requires Tied(model)
      ensures r == FlowWindow.OpenTransfer(limits, model, id, peer).1
      ensures r == Refused <==> peer.name == "" || |peer.name| > 256 || id in windows
      ensures r == Done <==>
        && 0 < |peer.name| <= 256 && id !in windows && !closed && |windows| < limits.maxActiveGlobal
        && (if peer in peerCounts then peerCounts[peer] else 0) < limits.maxActivePerPeer
      ensures r in {Done, Refused} || r == if closed then WindowClosed else WouldBlock
      ensures CountOf(model, peer) == if peer in peerCounts then peerCounts[peer] else 0
    {
      assert |model.windows.Keys| == |windows|;
      var count := if peer in peerCounts then peerCounts[peer] else 0;
      if !PeerOk(peer) || id in windows {
        return Refused;
      }
      if |windows| >= limits.maxActiveGlobal || count >= limits.maxActivePerPeer {
        return if closed then WindowClosed else WouldBlock;
      }
      if closed {
        return WindowClosed;
      }
      return Done;
    }

    method DropPeer(peer: Peer)
      requires peer in peerCounts && peerCounts[peer] > 0
      modifies this`peerCounts
      ensures peerCounts == WithoutPeer(old(peerCounts), peer)
    {
      var count := peerCounts[peer] - 1;
      peerCounts := if count != 0 then peerCounts[peer := count] else peerCounts - {peer};
    }

    method CloseTransfer(id: TransferId) returns (done: bool)
      requires id in windows ==> var p := windows[id].peerIdentity; p in peerCounts && peerCounts[p] > 0
      modifies this`windows, this`peerCounts, this`inflightBytes, if id in windows then {windows[id]} else {}
      ensures done <==> id in old(windows)
      ensures !done ==> windows == old(windows) && peerCounts == old(peerCounts) && inflightBytes == old(inflightBytes)
      ensures done ==>
        && var w := old(windows[id]);
        && windows == old(windows) - {id} && w.closed
        && peerCounts == WithoutPeer(old(peerCounts), w.peerIdentity)
        && inflightBytes == old(inflightBytes) - (if old(windows[id].closed) then 0 else Bytes(old(windows[id].chunks)))
    {
      if id !in windows {
        return false;
      }
      var window := windows[id];
      windows := windows - {id};
      var released := window.CloseLocked();
      inflightBytes := inflightBytes - released;
      DropPeer(window.peerIdentity);
      return true;
    }

    method ShutDown()
      modifies this`windows, this`peerCounts, this`inflightBytes, this`closed, Open()
      ensures model == old(model)
      ensures windows == map[] && peerCounts == map[] && inflightBytes == 0 && closed
      ensures forall id :: id in old(windows) ==> old(windows)[id].closed
    {
      closed := true;
      var rest := windows.Keys;
      while rest != {}
        invariant rest <= windows.Keys && windows == old(windows)
        invariant forall id :: id in windows && !windows[id].closed ==> id in rest
        modifies Open()
        decreases |rest|
      {
        var id :| id in rest;
        var _ := windows[id].CloseLocked();
        rest := rest - {id};
      }
      windows, peerCounts, inflightBytes := map[], map[], 0;
    }

    /** What the invariant says about one open window. */
    lemma OpenEntry(w: SendWindow)
      requires Valid() && Has(w)
      ensures w.transferId in model.windows && model.windows[w.transferId] == w.Abs()
      ensures forall k :: k in windows && k != w.transferId ==> windows[k] != w
      ensures w.coordinator == this && !w.closed && WindowInv(limits, w.Abs())
      ensures w.peerIdentity in peerCounts && peerCounts[w.peerIdentity] > 0
    {
      assert forall k :: k in windows ==> Same(windows[k], k, model.windows[k]);
      assert WindowInv(limits, model.windows[w.transferId]);
      assert CountOf(model, w.peerIdentity) == |PeerWindows(model, w.peerIdentity)|;
      assert w.transferId in PeerWindows(model, w.peerIdentity);
    }

    // -------------------------------------------------------------- the invariant, call by call
    //
    // A call on a registered window is exactly the coordinator step of the same name and keeps the
    // global invariant.

    method Send(w: SendWindow, entry: int, offset: int, payload: seq<Byte>, now: real) returns (r: Outcome)
      requires Valid() && Has(w)
      modifies w, this`inflightBytes, this`model
      ensures Valid() && model == Step(limits, old(model), FlowWindow.Send(w.transferId, entry, offset, payload, now))
    {
      hide CoordinatorInv, TrackSent, WindowInv, Same;
      ghost var op := FlowWindow.Send(w.transferId, entry, offset, payload, now);
      OpenEntry(w);
      StepKeepsInv(limits, model, op);
      r := w.TrackSent(entry, offset, payload, now);
      Tie(w);
      Settled(Step(limits, model, op));
    }

    method Resume(w: SendWindow, entry: int, offset: int) returns (r: Outcome)
      requires Valid() && Has(w)
      modifies w, this`model
      ensures Valid() && model == Step(limits, old(model), FlowWindow.Resume(w.transferId, entry, offset))
    {
      hide CoordinatorInv, WindowInv, Same;
      ghost var op := FlowWindow.Resume(w.transferId, entry, offset);
      OpenEntry(w);
      StepKeepsInv(limits, model, op);
      r := w.InitializeResume(entry, offset);
      Tie(w);
      Settled(Step(limits, model, op));
    }

    method Receive(w: SendWindow, ack: Ack) returns (r: AckOutcome)
      requires Valid() && Has(w)
      modifies w, this`windows, this`peerCounts, this`inflightBytes, this`model
      ensures Valid() && model == Step(limits, old(model), FlowWindow.Receive(w.transferId, ack))
      ensures !r.AckApplied? ==> model == old(model)
    {
      hide CoordinatorInv, WindowInv, AckWindow, AckWellFormed, Step, WithoutPeer, Same;
      ghost var id := w.transferId;
      ghost var next := Step(limits, model, FlowWindow.Receive(id, ack));
      OpenEntry(w);
      ReceiveStep(limits, model, id, ack);
      r := w.ApplyAck(ack);
      if id in windows {
        Tie(w);
      }
      Settled(next);
    }

    method CloseOpen(w: SendWindow)
      requires Valid() && Has(w)
      modifies w, this`windows, this`peerCounts, this`inflightBytes, this`model
      ensures Valid() && model == Step(limits, old(model), Close(w.transferId))
    {
      hide CoordinatorInv, WindowInv, Bytes, WithoutPeer, Step, Same;
      ghost var next := Step(limits, model, Close(w.transferId));
      OpenEntry(w);
      CloseStep(limits, model, w.transferId);
      var done := CloseTransfer(w.transferId);
      Settled(next);
    }

    /** `abort` closes by id, so on a window that is already closed it closes a newer one of that id. */
    method Abort(w: SendWindow) returns (done: bool)
      requires Valid()
      modifies this`windows, this`peerCounts, this`inflightBytes, this`model
      modifies if w.transferId in windows then {windows[w.transferId]} else {}
      ensures Valid() && model == Step(limits, old(model), Close(w.transferId))
      ensures done <==> w.transferId in old(windows)
    {
      hide CoordinatorInv, WindowInv;
      done := w.transferId in windows;
      if done {
        assert Same(windows[w.transferId], w.transferId, model.windows[w.transferId]);
        CloseOpen(windows[w.transferId]);
      }
    }

    method Admit(id: TransferId, peer: Peer) returns (w: SendWindow?, r: Outcome)
      requires Valid()
      modifies this`windows, this`peerCounts, this`model
      ensures Valid() && model == Step(limits, old(model), FlowWindow.Open(id, peer))
      ensures r == Done ==> w != null && Has(w)
    {
      hide CoordinatorInv, WindowInv, Step, FlowWindow.OpenTransfer, CountOf, OpenWindow, Same;
      ghost var next := Step(limits, model, FlowWindow.Open(id, peer));
      OpenStep(limits, model, id, peer);
      w, r := OpenTransfer(id, peer);
      if r == Done {
        forall k | k in windows && k != id ensures Same(windows[k], k, next.windows[k]) {
          assert Same(windows[k], k, model.windows[k]);
        }
        assert Same(w, id, next.windows[id]);
      }
      hide Same;
      Settled(next);
    }

    method Stop()
      requires Valid()
      modifies this, Open()
      ensures Valid() && model == Step(limits, old(model), Shutdown)
      ensures windows == map[] && peerCounts == map[] && inflightBytes == 0 && closed
      ensures forall id :: id in old(windows) ==> old(windows)[id].closed
    {
      hide CoordinatorInv, WindowInv;
      StepKeepsInv(limits, model, Shutdown);
      ShutDown();
      Settled(Step(limits, model, Shutdown));
    }
  }

  /** The coordinator step of an acknowledgement, told by what it does to the one window. */
  lemma ReceiveStep(l: Limits, c: Coordinator, id: TransferId, ack: Ack)
    requires CoordinatorInv(l, c) && id in c.windows && WindowInv(l, c.windows[id])
    ensures var c' := Step(l, c, FlowWindow.Receive(id, ack));
      if !AckWellFormed(ack) || ack.transferId != id then c' == c
      else
        var (w, r) := AckWindow(c.windows[id], ack);
        if !r.AckApplied? then c' == c && w == c.windows[id]
        else c' == Absorb(c, id, w, c.inflight - r.releasedBytes - r.discardedBytes) && w.peer == c.windows[id].peer
    ensures CoordinatorInv(l, Step(l, c, FlowWindow.Receive(id, ack)))
  {
    hide AckWindow, AckWellFormed, Absorb, CoordinatorInv, WindowInv;
    OpenWindowFacts(l, c, id);
    StepKeepsInv(l, c, FlowWindow.Receive(id, ack));
    if AckWellFormed(ack) {
      AckFrame(c.windows[id], ack);
    }
  }

  lemma CloseStep(l: Limits, c: Coordinator, id: TransferId)
    requires CoordinatorInv(l, c) && id in c.windows
    ensures var w := c.windows[id];
      Step(l, c, Close(id)) == Coordinator(c.windows - {id}, WithoutPeer(c.peerCounts, w.peer),
                                           c.inflight - Bytes(w.chunks), c.closed)
    ensures CoordinatorInv(l, Step(l, c, Close(id)))
  {
    hide CoordinatorInv, WindowInv, WithoutPeer, Bytes;
    StepKeepsInv(l, c, Close(id));
  }

  lemma OpenStep(l: Limits, c: Coordinator, id: TransferId, peer: Peer)
    requires CoordinatorInv(l, c)
    ensures var c' := Step(l, c, FlowWindow.Open(id, peer));
      && CoordinatorInv(l, c')
      && (if OpenTransfer(l, c, id, peer).1 == Done then
            id !in c.windows &&
            c' == Coordinator(c.windows[id := OpenWindow(id, peer)],
                              c.peerCounts[peer := CountOf(c, peer) + 1], c.inflight, c.closed)
          else c' == c)
  {
    hide CoordinatorInv, WindowInv;
    StepKeepsInv(l, c, FlowWindow.Open(id, peer));
  }
}
