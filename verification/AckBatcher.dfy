/** The receiver's cumulative acknowledgement batcher. */
module AckBatching {
  import opened Common
  import opened FlowWindow

  datatype AckEntry = AckEntry(verified: nat, durable: nat, pendingBytes: nat, pendingChunks: nat,
                               pendingSince: Option<real>, lastEmitted: Option<nat>, fileComplete: bool)

  /** `order` is the order in which the entries were first seen; polling visits them in it. */
  datatype Batcher = Batcher(id: TransferId, entries: map<nat, AckEntry>, order: seq<nat>)

  datatype Reply = Silent | Sent(ack: Ack) | Rejected

  predicate EntryOk(e: AckEntry) {
    e.durable <= e.verified <= MAX_LOGICAL_OFFSET
  }

  ghost predicate OrderOk(order: seq<nat>, keys: set<nat>) {
    && (forall e :: e in order <==> e in keys)
    && (forall i, j :: 0 <= i < j < |order| ==> order[i] != order[j])
  }

  ghost predicate EntriesOk(entries: map<nat, AckEntry>) {
    forall e {:trigger entries[e]} :: e in entries ==> e <= MAX_ENTRY_INDEX && EntryOk(entries[e])
  }

  ghost predicate BatcherOk(b: Batcher) {
    OrderOk(b.order, b.entries.Keys) && EntriesOk(b.entries)
  }

  function NewEntry(verified: nat, durable: nat): AckEntry {
    AckEntry(verified, durable, 0, 0, None, None, false)
  }

  function WithEntry(b: Batcher, e: nat, x: AckEntry): Batcher {
    b.(entries := b.entries[e := x], order := if e in b.entries then b.order else b.order + [e])
  }

  function RestoreEntry(b: Batcher, entry: int, verified: int, durable: int): (Batcher, Reply) {
    if !(0 <= entry <= MAX_ENTRY_INDEX) || !(0 <= verified <= MAX_LOGICAL_OFFSET)
       || !(0 <= durable <= MAX_LOGICAL_OFFSET) || durable > verified || entry in b.entries then (b, Rejected)
    else (WithEntry(b, entry, NewEntry(verified, durable)), Silent)
  }

  function AckFor(b: Batcher, e: nat, state: ReceiverState): Ack
    requires e in b.entries
  {
    Ack(b.id, e, b.entries[e].verified, b.entries[e].durable, state, [])
  }

  /** The batcher after acknowledging everything it has verified for entry `e`. */
  function Emitted(b: Batcher, e: nat): Batcher
    requires e in b.entries
  {
    var x := b.entries[e];
    b.(entries := b.entries[e := x.(pendingBytes := 0, pendingChunks := 0, pendingSince := None,
                                    lastEmitted := Some(x.verified))])
  }

  predicate ProgressOk(entry: int, offset: int, length: int, durable: Option<int>, complete: bool) {
    && 0 <= entry <= MAX_ENTRY_INDEX && 0 <= offset <= MAX_LOGICAL_OFFSET
    && 0 <= length <= MAX_BINARY_PAYLOAD_BYTES
    && (durable.Some? ==> 0 <= durable.value <= MAX_LOGICAL_OFFSET)
    && (length == 0 ==> complete)
  }

  /** The first progress of an entry creates it, even when that progress is then rejected. */
  function Seen(b: Batcher, entry: nat, offset: nat): Batcher {
    if entry in b.entries then b else WithEntry(b, entry, NewEntry(offset, 0))
  }

  function Recorded(x: AckEntry, length: nat, durable: nat, complete: bool, now: real): AckEntry {
    AckEntry(x.verified + length, durable, x.pendingBytes + length,
             x.pendingChunks + (if length > 0 then 1 else 0),
             if x.pendingSince.None? then Some(now) else x.pendingSince, x.lastEmitted, complete)
  }

  predicate Contiguous(x: AckEntry, offset: nat, length: nat, durable: int) {
    && !x.fileComplete && offset == x.verified && offset + length <= MAX_LOGICAL_OFFSET
    && x.durable <= durable <= offset + length
  }

  predicate DueNow(l: Limits, x: AckEntry) {
    x.fileComplete || x.pendingBytes >= l.ackBytes || x.pendingChunks >= l.ackChunks
  }

  function RecordVerified(l: Limits, b: Batcher, entry: int, offset: int, length: int, durable: Option<int>,
                          complete: bool, state: ReceiverState, now: real): (Batcher, Reply)
  {
    if !ProgressOk(entry, offset, length, durable, complete) then (b, Rejected)
    else
      var seen := Seen(b, entry, offset);
      var x := seen.entries[entry];
      var d: int := if durable.Some? then durable.value else x.durable;
      if !Contiguous(x, offset, length, d) then (seen, Rejected)
      else
        var x' := Recorded(x, length, d, complete, now);
        var b' := seen.(entries := seen.entries[entry := x']);
        if DueNow(l, x') then (Emitted(b', entry), Sent(AckFor(b', entry, state))) else (b', Silent)
  }

  function RecordDurable(b: Batcher, entry: int, durable: int, state: ReceiverState): (Batcher, Reply) {
    if entry !in b.entries then (b, Rejected)
    else
      var x := b.entries[entry];
      if !(x.durable <= durable <= x.verified) then (b, Rejected)
      else
        var b' := b.(entries := b.entries[entry as nat := x.(durable := durable)]);
        (Emitted(b', entry), Sent(AckFor(b', entry, state)))
  }

  function Flush(b: Batcher, entry: int, state: ReceiverState): (Batcher, Reply) {
    if entry !in b.entries then (b, Silent)
    else if b.entries[entry].pendingSince.None? then (b, Silent)
    else (Emitted(b, entry), Sent(AckFor(b, entry, state)))
  }

  predicate Overdue(l: Limits, x: AckEntry, now: real) {
    x.pendingSince.Some? && now - x.pendingSince.value >= l.ackInterval
  }

  /** Polling from the `i`-th entry on. */
  function PollFrom(l: Limits, b: Batcher, i: nat, state: ReceiverState, now: real): (Batcher, seq<Ack>)
    requires i <= |b.order| && forall e :: e in b.order ==> e in b.entries
    decreases |b.order| - i
  {
    if i == |b.order| then (b, [])
    else if Overdue(l, b.entries[b.order[i]], now) then
      var rest := PollFrom(l, Emitted(b, b.order[i]), i + 1, state, now);
      (rest.0, [AckFor(b, b.order[i], state)] + rest.1)
    else PollFrom(l, b, i + 1, state, now)
  }

  /** The entry has had something pending for a whole interval. */
  ghost predicate Waited(l: Limits, x: AckEntry, now: real) {
    x.pendingSince.Some? && now >= x.pendingSince.value + l.ackInterval
  }

  ghost predicate DueAt(l: Limits, b: Batcher, now: real, k: nat)
    requires OrderOk(b.order, b.entries.Keys)
  {
    k < |b.order| && Waited(l, b.entries[b.order[k]], now)
  }

  /** The places, from the i-th on, of exactly the entries that have waited, in order. */
  ghost predicate Places(l: Limits, b: Batcher, i: nat, now: real, due: seq<nat>)
    requires OrderOk(b.order, b.entries.Keys)
  {
    (forall p, q :: 0 <= p < q < |due| ==> due[p] < due[q]) && forall k: nat :: k in due <==> i <= k && DueAt(l, b, now, k)
  }

  /** The acknowledgement of the entry at a place: all it has verified, and all that is durable of it. */
  ghost predicate Acknowledges(b: Batcher, a: Ack, k: nat, state: ReceiverState)
    requires OrderOk(b.order, b.entries.Keys)
  {
    && k < |b.order|
    && var x := b.entries[b.order[k]];
    a == Ack(b.id, b.order[k], x.verified, x.durable, state, [])
  }

  /** An entry that was acknowledged has nothing pending; any other is as it was. */
  ghost predicate Settled(x: AckEntry, y: AckEntry, acked: bool) {
    y == if acked then AckEntry(x.verified, x.durable, 0, 0, None, Some(x.verified), x.fileComplete) else x
  }

  ghost predicate AllSettled(b: Batcher, b': Batcher, due: seq<nat>)
    requires OrderOk(b.order, b.entries.Keys)
  {
    && b'.id == b.id && b'.order == b.order && b'.entries.Keys == b.entries.Keys
    && forall k: nat :: k < |b.order| ==> Settled(b.entries[b.order[k]], b'.entries[b.order[k]], k in due)
  }

  ghost predicate Polled(l: Limits, b: Batcher, i: nat, state: ReceiverState, now: real, b': Batcher, acks: seq<Ack>, due: seq<nat>)
    requires OrderOk(b.order, b.entries.Keys)
  {
    && Places(l, b, i, now, due) && AllSettled(b, b', due) && |acks| == |due|
    && forall p :: 0 <= p < |due| ==> Acknowledges(b, acks[p], due[p], state)
  }

  /** What polling does: exactly the entries with something pending for a whole interval are acknowledged,
      in the order they were first seen. */
  ghost predicate PolledAll(l: Limits, b: Batcher, state: ReceiverState, now: real, b': Batcher, acks: seq<Ack>)
    requires OrderOk(b.order, b.entries.Keys)
  {
    exists due :: Polled(l, b, 0, state, now, b', acks, due)
  }

  lemma PollMeans(l: Limits, b: Batcher, state: ReceiverState, now: real)
    requires OrderOk(b.order, b.entries.Keys)
    ensures var (b', acks) := PollFrom(l, b, 0, state, now); PolledAll(l, b, state, now, b', acks)
  {
    hide Polled, PollFrom;
    var due := PollExactly(l, b, 0, state, now);
  }

  /** The two differ at the i-th place at most. */
  ghost predicate SameElse(b: Batcher, c: Batcher, i: nat)
    requires OrderOk(b.order, b.entries.Keys)
  {
    && c.id == b.id && c.order == b.order && c.entries.Keys == b.entries.Keys
    && forall k: nat :: k < |b.order| && k != i ==> c.entries[b.order[k]] == b.entries[b.order[k]]
  }

  lemma PlacesStep(l: Limits, b: Batcher, c: Batcher, i: nat, now: real, rest: seq<nat>)
    requires OrderOk(b.order, b.entries.Keys) && i < |b.order| && SameElse(b, c, i) && Places(l, c, i + 1, now, rest)
    ensures Places(l, b, i, now, if DueAt(l, b, now, i) then [i] + rest else rest)
  {
    hide OrderOk;
    forall k: nat | i + 1 <= k ensures DueAt(l, c, now, k) <==> DueAt(l, b, now, k) {
    }
    hide DueAt;
    var due := if DueAt(l, b, now, i) then [i] + rest else rest;
    forall q | 0 <= q < |rest| ensures i + 1 <= rest[q] {
      assert rest[q] in rest;
    }
    forall k: nat ensures k in due <==> i <= k && DueAt(l, b, now, k) {
      assert k in rest <==> i + 1 <= k && DueAt(l, c, now, k);
      assert k in due <==> k in rest || (k == i && DueAt(l, b, now, i));
    }
  }

  lemma SettledStep(b: Batcher, c: Batcher, b': Batcher, i: nat, acked: bool, rest: seq<nat>)
    requires OrderOk(b.order, b.entries.Keys) && i < |b.order| && SameElse(b, c, i) && AllSettled(c, b', rest) && i !in rest
    requires Settled(b.entries[b.order[i]], c.entries[b.order[i]], acked)
    ensures AllSettled(b, b', if acked then [i] + rest else rest)
  {
    var due := if acked then [i] + rest else rest;
    forall k: nat | k < |b.order| ensures Settled(b.entries[b.order[k]], b'.entries[b.order[k]], k in due) {
      assert Settled(c.entries[c.order[k]], b'.entries[c.order[k]], k in rest);
    }
  }

  lemma EmittedElse(b: Batcher, i: nat)
    requires OrderOk(b.order, b.entries.Keys) && i < |b.order|
    ensures SameElse(b, Emitted(b, b.order[i]), i) && Settled(b.entries[b.order[i]], Emitted(b, b.order[i]).entries[b.order[i]], true)
  {
    assert Emitted(b, b.order[i]).entries.Keys == b.entries.Keys;
  }

  lemma {:induction false} PollExactly(l: Limits, b: Batcher, i: nat, state: ReceiverState, now: real) returns (due: seq<nat>)
    requires OrderOk(b.order, b.entries.Keys) && i <= |b.order|
    ensures var (b', acks) := PollFrom(l, b, i, state, now); Polled(l, b, i, state, now, b', acks, due)
    decreases |b.order| - i
  {
    if i == |b.order| {
      due := [];
    } else {
      var acked := Overdue(l, b.entries[b.order[i]], now);
      var c := if acked then Emitted(b, b.order[i]) else b;
      EmittedElse(b, i);
      due := PollExactly(l, c, i + 1, state, now);
      PolledStep(l, b, c, i, acked, state, now, due);
      due := if acked then [i] + due else due;
    }
  }

  lemma AcksStep(b: Batcher, c: Batcher, i: nat, acked: bool, state: ReceiverState, acks: seq<Ack>, rest: seq<nat>)
    requires OrderOk(b.order, b.entries.Keys) && i < |b.order| && SameElse(b, c, i) && i !in rest && |acks| == |rest|
    requires forall p :: 0 <= p < |rest| ==> Acknowledges(c, acks[p], rest[p], state)
    ensures var all, due := if acked then [AckFor(b, b.order[i], state)] + acks else acks, if acked then [i] + rest else rest;
      |all| == |due| && forall p :: 0 <= p < |due| ==> Acknowledges(b, all[p], due[p], state)
  {
    forall p | 0 <= p < |rest| ensures Acknowledges(b, acks[p], rest[p], state) {
      assert Acknowledges(c, acks[p], rest[p], state) && rest[p] in rest;
    }
    assert Acknowledges(b, AckFor(b, b.order[i], state), i, state);
  }

  lemma PolledStep(l: Limits, b: Batcher, c: Batcher, i: nat, acked: bool, state: ReceiverState, now: real, rest: seq<nat>)
    requires OrderOk(b.order, b.entries.Keys) && i < |b.order| && SameElse(b, c, i) && acked == Overdue(l, b.entries[b.order[i]], now)
    requires c == if acked then Emitted(b, b.order[i]) else b
    requires Settled(b.entries[b.order[i]], c.entries[b.order[i]], acked)
    requires var (b', acks) := PollFrom(l, c, i + 1, state, now); Polled(l, c, i + 1, state, now, b', acks, rest)
    ensures var (b', acks) := PollFrom(l, b, i, state, now); Polled(l, b, i, state, now, b', acks, if acked then [i] + rest else rest)
  {
    assert acked <==> DueAt(l, b, now, i);
    hide OrderOk, AllSettled, Acknowledges, SameElse, Settled, DueAt, Emitted, AckFor, Overdue;
    var (b', acks) := PollFrom(l, c, i + 1, state, now);
    PlacesStep(l, b, c, i, now, rest);
    NotBefore(l, c, i + 1, now, rest);
    hide Places;
    SettledStep(b, c, b', i, acked, rest);
    AcksStep(b, c, i, acked, state, acks, rest);
  }

  lemma NotBefore(l: Limits, b: Batcher, i: nat, now: real, due: seq<nat>)
    requires OrderOk(b.order, b.entries.Keys) && Places(l, b, i, now, due)
    ensures forall k :: k in due ==> i <= k
  {
  }

  lemma PutKeepsOk(b: Batcher, e: nat, x: AckEntry)
    requires BatcherOk(b) && e <= MAX_ENTRY_INDEX && EntryOk(x)
    ensures BatcherOk(WithEntry(b, e, x))
  {
    var b' := WithEntry(b, e, x);
    assert b'.entries.Keys == b.entries.Keys + {e};
  }

  /** Emitting keeps the batcher well formed, and what it sends parses as an acknowledgement. */
  lemma EmitKeepsOk(b: Batcher, e: nat, state: ReceiverState)
    requires BatcherOk(b) && e in b.entries
    ensures BatcherOk(Emitted(b, e)) && AckWellFormed(AckFor(b, e, state))
  {
    assert EntryOk(b.entries[e]);
    PutKeepsOk(b, e, Emitted(b, e).entries[e]);
  }

  lemma RecordKeepsOk(l: Limits, b: Batcher, entry: int, offset: int, length: int, durable: Option<int>,
                      complete: bool, state: ReceiverState, now: real)
    requires BatcherOk(b)
    ensures var (b', r) := RecordVerified(l, b, entry, offset, length, durable, complete, state, now);
      BatcherOk(b') && (r.Sent? ==> AckWellFormed(r.ack))
  {
    hide OrderOk, EntriesOk, AckWellFormed;
    if ProgressOk(entry, offset, length, durable, complete) {
      PutKeepsOk(b, entry, NewEntry(offset, 0));
      var seen := Seen(b, entry, offset);
      var x := seen.entries[entry];
      var d: int := if durable.Some? then durable.value else x.durable;
      if Contiguous(x, offset, length, d) {
        var x' := Recorded(x, length, d, complete, now);
        PutKeepsOk(seen, entry, x');
        EmitKeepsOk(WithEntry(seen, entry, x'), entry, state);
      }
    }
  }

  /** Progress that is refused changes no entry, but creates its own unless a number is out of range. */
  lemma RefusedProgress(l: Limits, b: Batcher, entry: int, offset: int, length: int, durable: Option<int>,
                        complete: bool, state: ReceiverState, now: real)
    requires RecordVerified(l, b, entry, offset, length, durable, complete, state, now).1.Rejected?
    ensures var b' := RecordVerified(l, b, entry, offset, length, durable, complete, state, now).0;
      var inRange := 0 <= entry <= 199_999 && 0 <= offset <= 109_951_162_777_600 && 0 <= length <= 4_194_304
        && (durable.Some? ==> 0 <= durable.value <= 109_951_162_777_600) && (length == 0 ==> complete);
      && (forall e :: e in b.entries ==> e in b'.entries && b'.entries[e] == b.entries[e])
      && b'.entries.Keys == b.entries.Keys + if inRange then {entry as nat} else {}
  {
    hide Contiguous, Recorded, Emitted, AckFor, DueNow;
  }

  lemma DurableKeepsOk(b: Batcher, entry: int, durable: int, state: ReceiverState)
    requires BatcherOk(b)
    ensures var (b', r) := RecordDurable(b, entry, durable, state); BatcherOk(b') && (r.Sent? ==> AckWellFormed(r.ack))
  {
    hide OrderOk, AckWellFormed;
    if entry in b.entries && b.entries[entry].durable <= durable <= b.entries[entry].verified {
      assert EntryOk(b.entries[entry]);
      var x := b.entries[entry].(durable := durable);
      PutKeepsOk(b, entry, x);
      EmitKeepsOk(WithEntry(b, entry, x), entry, state);
    }
  }
}

/** The batcher object; its methods are the transitions of AckBatching. */
module AckBatcher {
  import opened Common
  import opened FlowWindow
  import opened AckBatching

  class CumulativeAckBatcher {
    const transferId: TransferId
    const limits: Limits
    var entries: map<nat, AckEntry>
    var order: seq<nat>

    constructor (id: TransferId, limits: Limits)
      ensures transferId == id && this.limits == limits && Abs() == Batcher(id, map[], []) && Valid()
    {
      transferId, this.limits, entries, order := id, limits, map[], [];
    }

    ghost function Abs(): Batcher
      reads this
    {
      Batcher(transferId, entries, order)
    }

    ghost predicate Valid()
      reads this
    {
      BatcherOk(Abs())
    }

    method RestoreEntry(entry: int, verified: int, durable: int) returns (r: Reply)
      requires Valid()
      modifies this
      ensures Valid() && (Abs(), r) == AckBatching.RestoreEntry(old(Abs()), entry, verified, durable)
    {
      if !(0 <= entry <= MAX_ENTRY_INDEX) || !(0 <= verified <= MAX_LOGICAL_OFFSET)
         || !(0 <= durable <= MAX_LOGICAL_OFFSET) || durable > verified {
        return Rejected;
      }
      if entry in entries {
        return Rejected;
      }
      Put(entry, NewEntry(verified, durable));
      return Silent;
    }

    method Put(entry: nat, x: AckEntry)
      requires Valid() && entry <= MAX_ENTRY_INDEX && EntryOk(x)
      modifies this
      ensures Valid() && Abs() == WithEntry(old(Abs()), entry, x)
    {
      PutKeepsOk(Abs(), entry, x);
      if entry !in entries {
        order := order + [entry];
      }
      entries := entries[entry := x];
    }

    method RecordVerified(entry: int, offset: int, length: int, durable: Option<int>, complete: bool,
                          state: ReceiverState, now: real) returns (r: Reply)
      requires Valid()
      modifies this
      ensures Valid() && (Abs(), r) == AckBatching.RecordVerified(limits, old(Abs()), entry, offset, length,
                                                                  durable, complete, state, now)
      ensures !r.Rejected? <==>
        && 0 <= entry <= 199_999 && 0 <= offset && 0 <= length <= 4_194_304 && offset + length <= 109_951_162_777_600
        && (durable.Some? ==> 0 <= durable.value <= offset + length)
        && (length == 0 ==> complete)
        && (entry in old(entries) ==>
              && !old(entries)[entry].fileComplete && offset == old(entries)[entry].verified
              && old(entries)[entry].durable <= if durable.Some? then durable.value else offset + length)
    {
      RecordKeepsOk(limits, Abs(), entry, offset, length, durable, complete, state, now);
      hide BatcherOk, Emitted, AckFor, Recorded;
      if !ProgressOk(entry, offset, length, durable, complete) {
        return Rejected;
      }
      if entry !in entries {
        entries, order := entries[entry := NewEntry(offset, 0)], order + [entry];
      }
      var x := entries[entry];
      var d: int := if durable.Some? then durable.value else x.durable;
      if x.fileComplete || offset != x.verified || offset + length > MAX_LOGICAL_OFFSET {
        return Rejected;
      }
      if d < x.durable || d > offset + length {
        return Rejected;
      }
      x := Advance(x, length, d, complete, now);
      entries := entries[entry := x];
      if complete || x.pendingBytes >= limits.ackBytes || x.pendingChunks >= limits.ackChunks {
        var ack := Emit(entry, state);
        return Sent(ack);
      }
      return Silent;
    }

    static method Advance(before: AckEntry, length: nat, durable: nat, complete: bool, now: real) returns (x: AckEntry)
      ensures x == Recorded(before, length, durable, complete, now)
    {
      x := before.(verified := before.verified + length, durable := durable, pendingBytes := before.pendingBytes + length);
      if length > 0 {
        x := x.(pendingChunks := x.pendingChunks + 1);
      }
      if x.pendingSince.None? {
        x := x.(pendingSince := Some(now));
      }
      x := x.(fileComplete := complete);
    }

    method RecordDurable(entry: int, durable: int, state: ReceiverState) returns (r: Reply)
      requires Valid()
      modifies this
      ensures Valid() && (Abs(), r) == AckBatching.RecordDurable(old(Abs()), entry, durable, state)
    {
      if entry !in entries {
        return Rejected;
      }
      var x := entries[entry];
      if durable < x.durable || durable > x.verified {
        return Rejected;
      }
      DurableKeepsOk(Abs(), entry, durable, state);
      entries := entries[entry as nat := x.(durable := durable)];
      var ack := Emit(entry, state);
      return Sent(ack);
    }

    method Flush(entry: int, state: ReceiverState) returns (r: Reply)
      requires Valid()
      modifies this
      ensures Valid() && (Abs(), r) == AckBatching.Flush(old(Abs()), entry, state)
    {
      if entry !in entries || entries[entry].pendingSince.None? {
        return Silent;
      }
      EmitKeepsOk(Abs(), entry, state);
      var ack := Emit(entry, state);
      return Sent(ack);
    }

    method Poll(state: ReceiverState, now: real) returns (acks: seq<Ack>)
      requires Valid()
      modifies this
      ensures Valid() && (Abs(), acks) == PollFrom(limits, old(Abs()), 0, state, now)
      ensures PolledAll(limits, old(Abs()), state, now, Abs(), acks)
    {
      hide PolledAll;
      PollMeans(limits, Abs(), state, now);
      ghost var all := PollFrom(limits, Abs(), 0, state, now);
      acks := [];
      var i := 0;
      while i < |order|
        invariant 0 <= i <= |order| && Valid()
        invariant var rest := PollFrom(limits, Abs(), i, state, now);
          rest.0 == all.0 && acks + rest.1 == all.1
        decreases |order| - i
      {
        var x := entries[order[i]];
        if x.pendingSince.Some? && now - x.pendingSince.value >= limits.ackInterval {
          EmitKeepsOk(Abs(), order[i], state);
          var ack := Emit(order[i], state);
          acks := acks + [ack];
        }
        i := i + 1;
      }
      assert acks + [] == acks;
    }

    method Emit(entry: nat, state: ReceiverState) returns (ack: Ack)
      requires entry in entries
      modifies this`entries
      ensures ack == AckFor(old(Abs()), entry, state) && Abs() == Emitted(old(Abs()), entry)
    {
      var x := entries[entry];
      ack := Ack(transferId, entry, x.verified, x.durable, state, []);
      entries := entries[entry := x.(pendingBytes := 0, pendingChunks := 0, pendingSince := None,
                                     lastEmitted := Some(x.verified))];
    }
  }
}
