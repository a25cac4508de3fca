/** The sender's side of the stream: captured files are read once, in manifest order, from the offset
    the receiver already has durable. */
module SenderStream {
  import opened Common
  import opened Staging
  import opened StageState
  import opened IncomingStage
  import J = ResumeJournal

  datatype StreamState = Ready | Streaming | Streamed | Broken

  datatype SourceReply = Done | NotReusable | SourceChanged | PrefixMismatch

  /** Where each file starts: the receiver's durable offset. */
  type Starts = nat -> nat

  /** The chunks lie end to end from offset `off` of file `i` to the end of the last file, each file
      from its own start, and carry the source's bytes. */
  ghost predicate StreamFrom(sha: Content -> Digest, transfer: TransferId, m: seq<J.Identity>, src: nat -> Content, start: Starts,
                             i: nat, off: nat, chunks: seq<PayloadChunk>)
    decreases |m| - i, |chunks|
  {
    if i >= |m| then chunks == []
    else if !IsFile(m, i) || off >= m[i].size then StreamFrom(sha, transfer, m, src, start, i + 1, start(i + 1), chunks)
    else
      && chunks != []
      && Carries(sha, transfer, chunks[0], src, i, off) && off + |chunks[0].payload| <= m[i].size
      && StreamFrom(sha, transfer, m, src, start, i, off + |chunks[0].payload|, chunks[1..])
  }

  ghost predicate Carries(sha: Content -> Digest, transfer: TransferId, c: PayloadChunk, src: nat -> Content, i: nat, off: nat) {
    && ChunkOk(sha, c) && c.transfer == transfer && c.entry == i && c.offset == off
    && off + |c.payload| <= |src(i)| && c.payload == src(i)[off..off + |c.payload|]
  }

  /** The chunks lie end to end from `off` to `end` in one file. */
  ghost predicate FileChunks(sha: Content -> Digest, transfer: TransferId, src: nat -> Content, i: nat, off: nat, end: nat, chunks: seq<PayloadChunk>)
    decreases |chunks|
  {
    if chunks == [] then off >= end
    else
      && off < end && Carries(sha, transfer, chunks[0], src, i, off) && off + |chunks[0].payload| <= end
      && FileChunks(sha, transfer, src, i, off + |chunks[0].payload|, end, chunks[1..])
  }

  lemma {:induction false} FileChunksAppend(sha: Content -> Digest, transfer: TransferId, src: nat -> Content, i: nat, off: nat, end: nat,
                                            chunks: seq<PayloadChunk>, c: PayloadChunk)
    requires off <= end && FileChunks(sha, transfer, src, i, off, end, chunks)
    requires Carries(sha, transfer, c, src, i, end)
    ensures FileChunks(sha, transfer, src, i, off, end + |c.payload|, chunks + [c])
    decreases |chunks|
  {
    if chunks == [] {
      assert [c][1..] == [] && chunks + [c] == [c];
    } else {
      assert (chunks + [c])[0] == chunks[0] && (chunks + [c])[1..] == chunks[1..] + [c];
      FileChunksAppend(sha, transfer, src, i, off + |chunks[0].payload|, end, chunks[1..], c);
    }
  }

  lemma NoChunks(sha: Content -> Digest, transfer: TransferId, src: nat -> Content, i: nat, off: nat)
    ensures FileChunks(sha, transfer, src, i, off, off, [])
  {
  }

  /** The chunks are those of the files before `i`, each from its start to its end. */
  ghost predicate Upto(sha: Content -> Digest, transfer: TransferId, m: seq<J.Identity>, src: nat -> Content, start: Starts,
                       i: nat, chunks: seq<PayloadChunk>)
    requires i <= |m|
    decreases i
  {
    if i == 0 then chunks == []
    else exists k: nat :: k <= |chunks| && Upto(sha, transfer, m, src, start, i - 1, chunks[..k]) && FileDone(sha, transfer, m, src, start, i - 1, chunks[k..])
  }

  ghost predicate FileDone(sha: Content -> Digest, transfer: TransferId, m: seq<J.Identity>, src: nat -> Content, start: Starts,
                           i: nat, chunks: seq<PayloadChunk>)
    requires i < |m|
  {
    if IsFile(m, i) then m[i].size >= 0 && FileChunks(sha, transfer, src, i, start(i), m[i].size, chunks) else chunks == []
  }

  lemma {:induction false} FileThenRest(sha: Content -> Digest, transfer: TransferId, m: seq<J.Identity>, src: nat -> Content, start: Starts,
                                        i: nat, off: nat, chunks: seq<PayloadChunk>, rest: seq<PayloadChunk>)
    requires IsFile(m, i) && m[i].size >= 0 && FileChunks(sha, transfer, src, i, off, m[i].size, chunks)
    requires StreamFrom(sha, transfer, m, src, start, i + 1, start(i + 1), rest)
    ensures StreamFrom(sha, transfer, m, src, start, i, off, chunks + rest)
    decreases |chunks|
  {
    if chunks == [] {
      assert chunks + rest == rest;
    } else {
      assert (chunks + rest)[0] == chunks[0] && (chunks + rest)[1..] == chunks[1..] + rest;
      FileThenRest(sha, transfer, m, src, start, i, off + |chunks[0].payload|, chunks[1..], rest);
    }
  }

  lemma DoneThenRest(sha: Content -> Digest, transfer: TransferId, m: seq<J.Identity>, src: nat -> Content, start: Starts,
                     i: nat, chunks: seq<PayloadChunk>, rest: seq<PayloadChunk>)
    requires i < |m| && FileDone(sha, transfer, m, src, start, i, chunks)
    requires StreamFrom(sha, transfer, m, src, start, i + 1, start(i + 1), rest)
    ensures StreamFrom(sha, transfer, m, src, start, i, start(i), chunks + rest)
  {
    if IsFile(m, i) {
      FileThenRest(sha, transfer, m, src, start, i, start(i), chunks, rest);
    } else {
      assert chunks + rest == rest;
    }
  }

  lemma {:induction false} UptoThenRest(sha: Content -> Digest, transfer: TransferId, m: seq<J.Identity>, src: nat -> Content, start: Starts,
                                        i: nat, chunks: seq<PayloadChunk>, rest: seq<PayloadChunk>)
    requires i <= |m| && Upto(sha, transfer, m, src, start, i, chunks) && StreamFrom(sha, transfer, m, src, start, i, start(i), rest)
    ensures StreamFrom(sha, transfer, m, src, start, 0, start(0), chunks + rest)
    decreases i
  {
    hide StreamFrom, FileDone;
    if i == 0 {
      assert chunks + rest == rest;
    } else {
      var k: nat :| k <= |chunks| && Upto(sha, transfer, m, src, start, i - 1, chunks[..k]) && FileDone(sha, transfer, m, src, start, i - 1, chunks[k..]);
      DoneThenRest(sha, transfer, m, src, start, i - 1, chunks[k..], rest);
      UptoThenRest(sha, transfer, m, src, start, i - 1, chunks[..k], chunks[k..] + rest);
      assert chunks[..k] + (chunks[k..] + rest) == chunks + rest;
    }
  }

  lemma UptoNext(sha: Content -> Digest, transfer: TransferId, m: seq<J.Identity>, src: nat -> Content, start: Starts,
                 i: nat, chunks: seq<PayloadChunk>, more: seq<PayloadChunk>)
    requires i < |m| && Upto(sha, transfer, m, src, start, i, chunks) && FileDone(sha, transfer, m, src, start, i, more)
    ensures Upto(sha, transfer, m, src, start, i + 1, chunks + more)
  {
    assert (chunks + more)[..|chunks|] == chunks && (chunks + more)[|chunks|..] == more;
  }

  predicate SizesOk(m: seq<J.Identity>) {
    forall i :: 0 <= i < |m| ==> m[i].size >= 0
  }

  function Emitted(chunks: seq<PayloadChunk>): nat {
    if chunks == [] then 0 else |chunks[0].payload| + Emitted(chunks[1..])
  }

  /** The bytes the receiver still lacks from (i, off) on. */
  function Missing(m: seq<J.Identity>, start: Starts, i: nat, off: nat): nat
    decreases |m| - i
  {
    if i >= |m| then 0
    else (if IsFile(m, i) && off < m[i].size then m[i].size - off else 0) + Missing(m, start, i + 1, start(i + 1))
  }

  /** The chunks emitted are exactly the bytes that were missing. */
  lemma {:induction false} EmittedIsMissing(sha: Content -> Digest, transfer: TransferId, m: seq<J.Identity>, src: nat -> Content,
                                            start: Starts, i: nat, off: nat, chunks: seq<PayloadChunk>)
    requires StreamFrom(sha, transfer, m, src, start, i, off, chunks)
    ensures Emitted(chunks) == Missing(m, start, i, off)
    decreases |m| - i, |chunks|
  {
    if i >= |m| {
    } else if !IsFile(m, i) || off >= m[i].size {
      EmittedIsMissing(sha, transfer, m, src, start, i + 1, start(i + 1), chunks);
    } else {
      EmittedIsMissing(sha, transfer, m, src, start, i, off + |chunks[0].payload|, chunks[1..]);
    }
  }

  lemma NothingLeft(sha: Content -> Digest, transfer: TransferId, m: seq<J.Identity>, src: nat -> Content, start: Starts)
    ensures StreamFrom(sha, transfer, m, src, start, |m|, start(|m|), []) && Missing(m, start, |m|, start(|m|)) == 0
  {
  }

  class SequentialFileStream {
    const sha: Content -> Digest
    const manifest: J.Manifest
    const transfer: TransferId
    const chunkSize: nat
    /** The present content of each source file. */
    const source: nat -> Content
    /** Whether the snapshot taken of each source at capture still holds. */
    const intact: nat -> bool
    const resume: map<nat, J.ResumeFile>
    var state: StreamState
    var prefixRead: nat
    var payloadRead: nat
    var emitted: nat
    var completion: Option<Completion>

    constructor (sha: Content -> Digest, manifest: J.Manifest, transfer: TransferId, chunkSize: nat, source: nat -> Content,
                 intact: nat -> bool, resume: map<nat, J.ResumeFile>)
      requires 0 < chunkSize <= MAX_BINARY_PAYLOAD_BYTES
      requires SizesOk(manifest.entries)
      requires forall i: nat :: i in resume && IsFile(manifest.entries, i) ==> resume[i].durable <= manifest.entries[i].size
      ensures PlanFits()
      ensures this.sha == sha && this.manifest == manifest && this.transfer == transfer && this.chunkSize == chunkSize
      ensures this.source == source && this.intact == intact && this.resume == resume
      ensures state == Ready && emitted == 0 && prefixRead == 0 && payloadRead == 0 && completion.None?
    {
      this.sha, this.manifest, this.transfer, this.chunkSize := sha, manifest, transfer, chunkSize;
      this.source, this.intact, this.resume := source, intact, resume;
      state, prefixRead, payloadRead, emitted, completion := Ready, 0, 0, 0, None;
    }

    function Start(i: nat): (off: nat) {
      if i in resume && resume[i].durable >= 0 then resume[i].durable else 0
    }

    /** A plan never asks to resume beyond the end of a file, and chunks fit a frame. */
    ghost predicate PlanFits() {
      && 0 < chunkSize <= MAX_BINARY_PAYLOAD_BYTES
      && (forall i: nat :: i in resume && IsFile(manifest.entries, i) ==> resume[i].durable <= manifest.entries[i].size)
      && SizesOk(manifest.entries)
    }

    /** Everything the stream checks of one source. */
    predicate SourceOk(i: nat)
      requires i < |manifest.entries|
    {
      && intact(i)
      && (IsFile(manifest.entries, i) ==>
            && |source(i)| == manifest.entries[i].size && Start(i) <= |source(i)|
            && (i in resume && resume[i].prefix.Some? ==> resume[i].prefix == Some(sha(source(i)[..Start(i)])))
            && (manifest.entries[i].expected.Some? ==> manifest.entries[i].expected == Some(sha(source(i)))))
    }

    /** What one read returns: some bytes when any are left, at most as many as were asked for. */
    method Read(i: nat, pos: nat, amount: nat, schedule: (nat, nat) -> nat) returns (payload: Content)
      requires 0 < amount
      ensures pos >= |source(i)| ==> payload == []
      ensures pos < |source(i)| ==>
        0 < |payload| <= amount && pos + |payload| <= |source(i)| && payload == source(i)[pos..pos + |payload|]
    {
      if pos >= |source(i)| {
        return [];
      }
      var left := |source(i)| - pos;
      var most := if amount < left then amount else left;
      var n := if schedule(i, pos) == 0 then 1 else schedule(i, pos);
      return source(i)[pos..pos + if n < most then n else most];
    }

    /** Hashes the durable prefix without sending it. */
    method ReadPrefix(i: nat, durable: nat, schedule: (nat, nat) -> nat) returns (ok: bool, hashed: Content)
      requires 0 < chunkSize
      modifies this`prefixRead
      ensures ok <==> durable <= |source(i)|
      ensures ok ==> hashed == source(i)[..durable] && prefixRead == old(prefixRead) + durable
    {
      var remaining := durable;
      hashed := [];
      while remaining > 0
        invariant 0 <= remaining <= durable && |hashed| == durable - remaining <= |source(i)|
        invariant hashed == source(i)[..durable - remaining] && prefixRead == old(prefixRead) + durable - remaining
        decreases remaining
      {
        var payload := Read(i, durable - remaining, if chunkSize < remaining then chunkSize else remaining, schedule);
        if payload == [] {
          return false, hashed;
        }
        hashed := hashed + payload;
        remaining := remaining - |payload|;
        prefixRead := prefixRead + |payload|;
      }
      return true, hashed;
    }

    lemma Longer(i: nat, offset: nat, payload: Content)
      requires offset + |payload| <= |source(i)| && payload == source(i)[offset..offset + |payload|]
      ensures source(i)[..offset] + payload == source(i)[..offset + |payload|]
    {
    }

    /** Reads, hashes and emits a file from its start to the size the manifest names. */
    method EmitRest(i: nat, prefix: Content, schedule: (nat, nat) -> nat) returns (chunks: seq<PayloadChunk>, ok: bool, hashed: Content)
      requires PlanFits() && IsFile(manifest.entries, i) && Start(i) <= |source(i)| && prefix == source(i)[..Start(i)]
      modifies this`payloadRead, this`emitted
      ensures ok <==> manifest.entries[i].size <= |source(i)|
      ensures ok ==>
        && hashed == source(i)[..manifest.entries[i].size]
        && FileChunks(sha, transfer, source, i, Start(i), manifest.entries[i].size, chunks)
        && emitted == old(emitted) + manifest.entries[i].size - Start(i) && payloadRead == old(payloadRead) + manifest.entries[i].size - Start(i)
    {
      hide FileChunks;
      var size := manifest.entries[i].size;
      chunks, hashed := [], prefix;
      NoChunks(sha, transfer, source, i, Start(i));
      var offset := Start(i);
      while offset < size
        invariant Start(i) <= offset <= |source(i)| && offset <= size && hashed == source(i)[..offset]
        invariant emitted == old(emitted) + offset - Start(i) && payloadRead == old(payloadRead) + offset - Start(i)
        invariant FileChunks(sha, transfer, source, i, Start(i), offset, chunks)
        decreases size - offset
      {
        var payload := Read(i, offset, if chunkSize < size - offset then chunkSize else size - offset, schedule);
        if payload == [] {
          return chunks, false, hashed;
        }
        Longer(i, offset, payload);
        hashed := hashed + payload;
        var c := PayloadChunk(transfer, i, offset, payload, sha(payload));
        FileChunksAppend(sha, transfer, source, i, Start(i), offset, chunks, c);
        chunks := chunks + [c];
        offset, payloadRead, emitted := offset + |payload|, payloadRead + |payload|, emitted + |payload|;
      }
      return chunks, true, hashed;
    }

    /** One file: its prefix is hashed and checked, the rest is read, hashed and emitted, and the end
        must be where the manifest says. */
    method StreamFile(i: nat, schedule: (nat, nat) -> nat) returns (chunks: seq<PayloadChunk>, r: SourceReply, digest: Digest)
      requires PlanFits() && IsFile(manifest.entries, i) && intact(i)
      modifies this`prefixRead, this`payloadRead, this`emitted
      ensures r == Done <==> SourceOk(i)
      ensures r == Done ==> digest == sha(source(i)) && emitted == old(emitted) + |source(i)| - Start(i)
      ensures r == Done ==> prefixRead == old(prefixRead) + Start(i) && payloadRead == old(payloadRead) + |source(i)| - Start(i)
      ensures r == Done ==> FileDone(sha, transfer, manifest.entries, source, Begin(), i, chunks)
    {
      hide FileChunks;
      chunks, digest := [], sha([]);
      var ok, hashed := ReadPrefix(i, Start(i), schedule);
      if !ok {
        return chunks, SourceReply.SourceChanged, digest;
      }
      if i in resume && resume[i].prefix.Some? && resume[i].prefix != Some(sha(hashed)) {
        return chunks, PrefixMismatch, digest;
      }
      chunks, ok, hashed := EmitRest(i, hashed, schedule);
      if !ok {
        return chunks, SourceReply.SourceChanged, digest;
      }
      var grew := Read(i, manifest.entries[i].size, 1, schedule);
      if grew != [] {
        return chunks, SourceReply.SourceChanged, digest;
      }
      assert source(i)[..manifest.entries[i].size] == source(i);
      digest := sha(hashed);
      if manifest.entries[i].expected.Some? && manifest.entries[i].expected != Some(digest) {
        return chunks, SourceReply.SourceChanged, digest;
      }
      return chunks, Done, digest;
    }

    ghost function Begin(): Starts {
      i => Start(i)
    }

    /** The whole stream: every source checked, read and emitted in manifest order. Sources do not change
        while they are read here, so the check of all of them at the end would find nothing new and is not
        repeated. The chunks already emitted when a source fails stay emitted. */
    method IterChunks(schedule: (nat, nat) -> nat) returns (chunks: seq<PayloadChunk>, r: SourceReply)
      requires PlanFits()
      modifies this
      ensures old(state) != Ready ==> r == NotReusable && chunks == [] && state == old(state) && completion == old(completion)
      ensures old(state) == Ready ==>
        (r == Done <==> forall i :: 0 <= i < |manifest.entries| ==> SourceOk(i)) && (state == if r == Done then Streamed else Broken)
      ensures r == Done ==>
        && StreamFrom(sha, transfer, manifest.entries, source, Begin(), 0, Start(0), chunks)
        && completion.Some? && Vouches(completion.value)
      ensures r == Done ==> emitted == old(emitted) + Emitted(chunks) && Emitted(chunks) == Missing(manifest.entries, Begin(), 0, Start(0))
    {
      hide StreamFrom, FileDone, Missing, SourceOk, Emitted, SizeOf, Vouches;
      if state != Ready {
        return [], NotReusable;
      }
      state, chunks := Streaming, [];
      var hashes: map<int, Digest> := map[];
      var fingerprints: map<int, nat> := map[];
      var i := 0;
      while i < |manifest.entries|
        invariant 0 <= i <= |manifest.entries| && state == Streaming && PlanFits()
        invariant forall k :: 0 <= k < i ==> SourceOk(k)
        invariant Upto(sha, transfer, manifest.entries, source, Begin(), i, chunks)
        invariant VouchesUpto(hashes, fingerprints, i)
        invariant emitted == old(emitted) + Missing(manifest.entries, Begin(), 0, Start(0)) - Missing(manifest.entries, Begin(), i, Start(i))
      {
        var more, digest;
        more, r, digest := StreamEntry(i, schedule);
        if r != Done {
          state := Broken;
          return chunks + more, r;
        }
        UptoNext(sha, transfer, manifest.entries, source, Begin(), i, chunks, more);
        VouchesNext(hashes, fingerprints, i, digest);
        if manifest.entries[i].kind == J.File {
          hashes := hashes[i := digest];
        }
        chunks, fingerprints := chunks + more, fingerprints[i := manifest.entries[i].fingerprint];
        i := i + 1;
      }
      NothingLeft(sha, transfer, manifest.entries, source, Begin());
      UptoThenRest(sha, transfer, manifest.entries, source, Begin(), i, chunks, []);
      assert chunks + [] == chunks;
      EmittedIsMissing(sha, transfer, manifest.entries, source, Begin(), 0, Start(0), chunks);
      VouchesAll(hashes, fingerprints);
      completion := Some(Completion(transfer, manifest.digest, SizeOf(manifest.entries), hashes, fingerprints));
      state := Streamed;
      return chunks, Done;
    }

    /** One entry: its snapshot must still hold, and a file is streamed. */
    method StreamEntry(i: nat, schedule: (nat, nat) -> nat) returns (more: seq<PayloadChunk>, r: SourceReply, digest: Digest)
      requires PlanFits() && i < |manifest.entries|
      modifies this`prefixRead, this`payloadRead, this`emitted
      ensures r == Done <==> SourceOk(i)
      ensures r == Done ==>
        && emitted + Missing(manifest.entries, Begin(), i + 1, Start(i + 1)) == old(emitted) + Missing(manifest.entries, Begin(), i, Start(i))
        && FileDone(sha, transfer, manifest.entries, source, Begin(), i, more)
      ensures r == Done && manifest.entries[i].kind == J.File ==> digest == sha(source(i))
    {
      hide StreamFrom, FileDone, Missing, SourceOk, Emitted, SizeOf;
      MissingStep(i);
      more, digest := [], sha([]);
      if !intact(i) {
        return more, SourceReply.SourceChanged, digest;
      }
      r := Done;
      if manifest.entries[i].kind == J.File {
        more, r, digest := StreamFile(i, schedule);
      }
    }

    /** The evidence gathered from the entries before `i`. */
    ghost predicate VouchesUpto(hashes: map<int, Digest>, fingerprints: map<int, nat>, i: nat) {
      && (forall k :: k in hashes <==> 0 <= k < i && IsFile(manifest.entries, k))
      && (forall k: nat :: k in hashes ==> hashes[k] == sha(source(k)))
      && (forall k :: k in fingerprints <==> 0 <= k < i)
      && (forall k :: k in fingerprints && 0 <= k < |manifest.entries| ==> fingerprints[k] == manifest.entries[k].fingerprint)
    }

    lemma VouchesNext(hashes: map<int, Digest>, fingerprints: map<int, nat>, i: nat, digest: Digest)
      requires i < |manifest.entries| && VouchesUpto(hashes, fingerprints, i)
      requires manifest.entries[i].kind == J.File ==> digest == sha(source(i))
      ensures VouchesUpto(if manifest.entries[i].kind == J.File then hashes[i := digest] else hashes,
                          fingerprints[i := manifest.entries[i].fingerprint], i + 1)
    {
    }

    lemma VouchesAll(hashes: map<int, Digest>, fingerprints: map<int, nat>)
      requires VouchesUpto(hashes, fingerprints, |manifest.entries|)
      ensures Vouches(Completion(transfer, manifest.digest, SizeOf(manifest.entries), hashes, fingerprints))
    {
    }

    /** What one entry adds, and when it is in order. */
    lemma MissingStep(i: nat)
      requires PlanFits() && i < |manifest.entries|
      ensures var here := if IsFile(manifest.entries, i) && Start(i) < manifest.entries[i].size then manifest.entries[i].size - Start(i) else 0;
        Missing(manifest.entries, Begin(), i, Start(i)) == here + Missing(manifest.entries, Begin(), i + 1, Start(i + 1))
      ensures !intact(i) ==> !SourceOk(i)
      ensures SourceOk(i) && IsFile(manifest.entries, i) ==> |source(i)| == manifest.entries[i].size
      ensures manifest.entries[i].kind == J.Directory ==> (SourceOk(i) <==> intact(i))
      ensures manifest.entries[i].kind == J.Directory ==> FileDone(sha, transfer, manifest.entries, source, Begin(), i, [])
      ensures IsFile(manifest.entries, i) ==> Start(i) <= manifest.entries[i].size
    {
    }

    /** The completion names the manifest and the hash of the present content of every file. */
    ghost predicate Vouches(c: Completion) {
      && c.transfer == transfer && c.manifest == manifest.digest && c.total == SizeOf(manifest.entries)
      && (forall i :: i in c.hashes <==> IsFile(manifest.entries, i))
      && (forall i: nat :: i in c.hashes ==> c.hashes[i] == sha(source(i)))
      && (forall i :: i in c.fingerprints <==> 0 <= i < |manifest.entries|)
      && (forall i :: i in c.fingerprints && 0 <= i < |manifest.entries| ==> c.fingerprints[i] == manifest.entries[i].fingerprint)
    }
  }
}
