/** The chunked transfer of one payload: how it is cut, and the two receivers that put it together again,
    in memory and in a file. */
module ChunkAssembly {
  import opened Common

  type Bytes = seq<Byte>

  const MAX_CHUNK_COUNT: nat := 65536

  datatype Status = Stored | Duplicate | HashMismatch | Invalid

  /** A chunk as parsed from the wire; its hash is optional. */
  datatype Chunk = Chunk(index: int, offset: int, data: Bytes, sha: Option<Digest>)

  datatype Piece = Piece(index: nat, offset: nat, length: nat)

  // ---------------------------------------------------------------- cutting

  function ChunkCount(total: nat, size: nat): nat
    requires size > 0
  {
    (total + size - 1) / size
  }

  /** What the announcement of a transfer fixes. */
  datatype Geometry = Geometry(total: nat, size: nat, count: nat)

  predicate GeometryOk(g: Geometry) {
    g.size > 0 && g.count == ChunkCount(g.total, g.size) && g.count <= MAX_CHUNK_COUNT
  }

  function Start(g: Geometry, i: nat): nat {
    i * g.size
  }

  function Length(g: Geometry, i: nat): nat {
    if Start(g, i) + g.size <= g.total then g.size else if Start(g, i) <= g.total then g.total - Start(g, i) else 0
  }

  /** The pieces follow each other without gap or overlap and end with the payload. */
  lemma PiecesTile(g: Geometry, i: nat)
    requires g.size > 0 && g.count == ChunkCount(g.total, g.size)
    ensures i < g.count <==> Start(g, i) < g.total
    ensures i < g.count ==> 0 < Length(g, i) <= g.size && Start(g, i) + Length(g, i) <= g.total
    ensures i < g.count ==> Start(g, i) + Length(g, i) == if i + 1 < g.count then Start(g, i + 1) else g.total
    ensures Start(g, i + 1) == Start(g, i) + g.size
  {
    CountBounds(g.total, g.size);
    Steps(g.size, i, g.count);
    Steps(g.size, i + 1, g.count);
    Steps(g.size, g.count, i);
    assert (i + 1) * g.size == i * g.size + g.size;
    Steps(g.size, g.count - 1, i);
  }

  lemma CountBounds(total: nat, size: nat)
    requires size > 0
    ensures (ChunkCount(total, size) - 1) * size < total || total == 0
    ensures total <= ChunkCount(total, size) * size
    ensures total == 0 ==> ChunkCount(total, size) == 0
  {
    var n := total + size - 1;
    assert n == (n / size) * size + n % size;
  }

  lemma {:induction false} Steps(size: nat, i: int, j: int)
    ensures i <= j ==> i * size <= j * size
    ensures i < j ==> i * size + size <= j * size
    decreases j - i
  {
    if i < j {
      Steps(size, i, j - 1);
      assert j * size == (j - 1) * size + size;
    }
  }

  /** The sender's plan. */
  method ChunkPlan(total: int, size: int) returns (plan: seq<Piece>)
    ensures var g := Geometry(if total < 0 then 0 else total, if size < 1 then 1 else size, |plan|);
            && g.count == ChunkCount(g.total, g.size)
            && forall i :: 0 <= i < |plan| ==> plan[i] == Piece(i, Start(g, i), Length(g, i))
  {
    var t := if total < 0 then 0 else total;
    var s := if size < 1 then 1 else size;
    ghost var g := Geometry(t, s, ChunkCount(t, s));
    plan := [];
    var offset := 0;
    PiecesTile(g, 0);
    while offset < t
      invariant |plan| <= g.count && offset == if |plan| < g.count then Start(g, |plan|) else t
      invariant forall i :: 0 <= i < |plan| ==> plan[i] == Piece(i, Start(g, i), Length(g, i))
      decreases t - offset
    {
      PiecesTile(g, |plan|);
      PiecesTile(g, |plan| + 1);
      var length := if s < t - offset then s else t - offset;
      plan := plan + [Piece(|plan|, offset, length)];
      offset := offset + length;
    }
    PiecesTile(g, |plan|);
  }

  // ---------------------------------------------------------------- in memory

  function Joined(chunks: map<nat, Bytes>, n: nat): Bytes
    requires forall i :: 0 <= i < n ==> i in chunks
  {
    if n == 0 then [] else Joined(chunks, n - 1) + chunks[n - 1]
  }

  lemma {:induction false} FullSet(s: set<nat>, n: nat)
    requires forall i :: i in s ==> i < n
    ensures |s| <= n && (|s| == n <==> forall i :: 0 <= i < n ==> i in s)
    decreases n
  {
    if n == 0 {
      assert s == {};
    } else {
      FullSet(s - {n - 1}, n - 1);
      assert forall i :: i in s - {n - 1} <==> i in s && i != n - 1;
      if n - 1 in s {
        assert |s - {n - 1}| == |s| - 1;
      } else {
        assert s - {n - 1} == s;
      }
    }
  }

  class ChunkAssembler {
    const total: nat
    const count: nat
    const sha: Bytes -> Digest
    const expected: Option<Digest>
    var chunks: map<nat, Bytes>
    var received: nat

    ghost predicate Valid()
      reads this
    {
      forall i :: i in chunks ==> i < count
    }

    constructor (total: nat, count: nat, sha: Bytes -> Digest, expected: Option<Digest>)
      ensures Valid() && this.total == total && this.count == count && this.sha == sha && this.expected == expected && chunks == map[] && received == 0
    {
      this.total, this.count, this.sha, this.expected, chunks, received := total, count, sha, expected, map[], 0;
    }

    method AddChunk(index: int, data: Bytes, chunkSha: Option<Digest>) returns (status: Status)
      requires Valid()
      modifies this
      ensures Valid()
      ensures status == if index < 0 || index >= count then Invalid else if index in old(chunks) then Duplicate
              else if chunkSha.Some? && sha(data) != chunkSha.value then HashMismatch else Stored
      ensures chunks == if status == Stored then old(chunks)[index := data] else old(chunks)
      ensures received == old(received) + (if status == Stored then |data| else 0)
    {
      if index < 0 || index >= count {
        return Invalid;
      }
      if index in chunks {
        return Duplicate;
      }
      if chunkSha.Some? && sha(data) != chunkSha.value {
        return HashMismatch;
      }
      chunks, received := chunks[index := data], received + |data|;
      status := Stored;
    }

    /** The lowest index not received yet. */
    method NextIndex() returns (i: nat)
      requires Valid()
      ensures i !in chunks && forall j :: 0 <= j < i ==> j in chunks
    {
      i := 0;
      while i in chunks
        invariant i <= count && forall j :: 0 <= j < i ==> j in chunks
        decreases count - i
      {
        i := i + 1;
      }
    }

    predicate Complete()
      reads this
    {
      |chunks.Keys| == count
    }

    method Assemble() returns (r: Option<Bytes>)
      requires Valid()
      ensures r.Some? ==> (forall i :: 0 <= i < count ==> i in chunks) && r.value == Joined(chunks, count) && |r.value| == total
      ensures r.Some? && expected.Some? ==> sha(r.value) == expected.value
      ensures (forall i :: 0 <= i < count ==> i in chunks) ==>
        (r.Some? <==> |Joined(chunks, count)| == total && (expected.Some? ==> sha(Joined(chunks, count)) == expected.value))
    {
      FullSet(chunks.Keys, count);
      if !Complete() {
        return None;
      }
      var data: Bytes := [];
      var i := 0;
      while i < count
        invariant 0 <= i <= count && data == Joined(chunks, i)
      {
        data := data + chunks[i];
        i := i + 1;
      }
      if |data| != total || (expected.Some? && sha(data) != expected.value) {
        return None;
      }
      r := Some(data);
    }
  }

  // ---------------------------------------------------------------- in a file

  class DiskChunkAssembler {
    const count: nat
    const sha: Bytes -> Digest
    const expected: Option<Digest>
    const file: array<Byte>
    var indices: set<nat>
    var received: nat

    ghost predicate Valid()
      reads this
    {
      forall i :: i in indices ==> i < count
    }

    /** The file has its final size from the start. */
    constructor (total: nat, count: nat, sha: Bytes -> Digest, expected: Option<Digest>)
      ensures Valid() && this.count == count && this.sha == sha && this.expected == expected && indices == {} && received == 0
      ensures fresh(file) && file.Length == total
    {
      this.count, this.sha, this.expected, indices, received := count, sha, expected, {}, 0;
      file := new Byte[total](i => 0);
    }

    method WriteAt(offset: nat, data: Bytes)
      requires offset + |data| <= file.Length
      modifies file
      ensures file[..] == old(file[..offset]) + data + old(file[offset + |data|..])
    {
      var k := 0;
      while k < |data|
        invariant 0 <= k <= |data|
        invariant forall j :: 0 <= j < file.Length ==> file[j] == if offset <= j < offset + k then data[j - offset] else old(file[j])
      {
        file[offset + k] := data[k];
        k := k + 1;
      }
    }

    method AddChunk(index: int, offset: int, data: Bytes, chunkSha: Option<Digest>) returns (status: Status)
      requires Valid()
      modifies this, file
      ensures Valid()
      ensures status == if index < 0 || index >= count || offset < 0 then Invalid else if index in old(indices) then Duplicate
              else if chunkSha.Some? && sha(data) != chunkSha.value then HashMismatch
              else if offset + |data| > file.Length then Invalid else Stored
      ensures status == Stored ==> indices == old(indices) + {index} && received == old(received) + |data|
      ensures status == Stored ==> file[..] == old(file[..offset]) + data + old(file[offset + |data|..])
      ensures status != Stored ==> indices == old(indices) && received == old(received) && file[..] == old(file[..])
    {
      if index < 0 || index >= count || offset < 0 {
        return Invalid;
      }
      if index in indices {
        return Duplicate;
      }
      if chunkSha.Some? && sha(data) != chunkSha.value {
        return HashMismatch;
      }
      if offset + |data| > file.Length {
        return Invalid;
      }
      WriteAt(offset, data);
      indices, received := indices + {index}, received + |data|;
      status := Stored;
    }

    method NextIndex() returns (i: nat)
      requires Valid()
      ensures i !in indices && forall j :: 0 <= j < i ==> j in indices
    {
      i := 0;
      while i in indices
        invariant i <= count && forall j :: 0 <= j < i ==> j in indices
        decreases count - i
      {
        i := i + 1;
      }
    }

    method Finish() returns (r: Option<Bytes>)
      requires Valid()
      ensures r.Some? <==> (forall i :: 0 <= i < count ==> i in indices) && (expected.Some? ==> sha(file[..]) == expected.value)
      ensures r.Some? ==> r.value == file[..]
    {
      FullSet(indices, count);
      if |indices| != count || (expected.Some? && sha(file[..]) != expected.value) {
        return None;
      }
      r := Some(file[..]);
    }
  }

  // ---------------------------------------------------------------- one receiver refines the other

  /** The receiver's check of a chunk against the announcement. */
  predicate Fits(g: Geometry, c: Chunk) {
    && 0 <= c.index < g.count && c.offset == Start(g, c.index)
    && var expected := if g.size < g.total - c.offset then g.size else g.total - c.offset;
    expected > 0 && |c.data| == expected
  }

  /** A chunk is taken exactly when it is one of the pieces: every piece has the full size but the last, which
      has what is left. */
  lemma FitsExactly(g: Geometry, c: Chunk)
    requires GeometryOk(g)
    ensures Fits(g, c) <==>
      && 0 <= c.index < g.count && c.offset == c.index * g.size
      && |c.data| == if c.index + 1 < g.count then g.size else g.total - c.offset
  {
    if 0 <= c.index < g.count {
      PiecesTile(g, c.index);
      PiecesTile(g, c.index + 1);
      assert (c.index + 1) * g.size == c.index * g.size + g.size;
    }
  }

  lemma FitsIsPiece(g: Geometry, c: Chunk)
    requires GeometryOk(g) && Fits(g, c)
    ensures 0 <= c.index < g.count && c.offset == Start(g, c.index)
    ensures |c.data| == Length(g, c.index) && c.offset + |c.data| <= g.total
  {
    PiecesTile(g, c.index);
  }

  /** The file holds every received chunk at its place. */
  ghost predicate Refines(g: Geometry, chunks: map<nat, Bytes>, indices: set<nat>, file: Bytes) {
    && indices == chunks.Keys && |file| == g.total
    && forall i :: i in chunks ==> Placed(g, file, i, chunks[i])
  }

  predicate Placed(g: Geometry, file: Bytes, i: nat, data: Bytes) {
    |data| == Length(g, i) && Start(g, i) + |data| <= |file| && file[Start(g, i)..Start(g, i) + |data|] == data
  }

  lemma JustPlaced(g: Geometry, file: Bytes, i: nat, data: Bytes)
    requires |data| == Length(g, i) && Start(g, i) + |data| <= |file|
    ensures Placed(g, file[..Start(g, i)] + data + file[Start(g, i) + |data|..], i, data)
  {
  }

  /** Writing one piece leaves all others where they are. */
  lemma WriteKeepsOthers(g: Geometry, file: Bytes, i: nat, data: Bytes, j: nat, other: Bytes)
    requires GeometryOk(g) && |file| == g.total && i < g.count && i != j && |data| == Length(g, i) && Placed(g, file, j, other)
    ensures Start(g, i) + |data| <= |file| && Placed(g, file[..Start(g, i)] + data + file[Start(g, i) + |data|..], j, other)
  {
    PiecesTile(g, i);
    PiecesTile(g, j);
    Steps(g.size, i, j);
    Steps(g.size, j, i);
    var a, b := Start(g, i), Start(g, j);
    var after := file[..a] + data + file[a + |data|..];
    if i < j {
      assert a + |data| <= b;
      assert after[b..b + |other|] == file[b..b + |other|];
    } else {
      assert b + |other| <= a;
      assert after[b..b + |other|] == file[b..b + |other|];
    }
  }

  lemma StartsAtZero(g: Geometry)
    ensures Start(g, 0) == 0
  {
  }

  /** A complete file is the chunks one after the other. */
  lemma {:induction false} CompleteIsJoined(g: Geometry, chunks: map<nat, Bytes>, file: Bytes, n: nat)
    requires GeometryOk(g) && Refines(g, chunks, chunks.Keys, file) && n <= g.count && forall i :: 0 <= i < g.count ==> i in chunks
    ensures Joined(chunks, n) == if n < g.count then file[..if Start(g, n) <= |file| then Start(g, n) else |file|] else file
  {
    hide Start, Length, ChunkCount;
    PiecesTile(g, n);
    if n == 0 {
      PiecesTile(g, 0);
      StartsAtZero(g);
      assert g.count == 0 ==> file == [];
    } else {
      PiecesTile(g, n - 1);
      CompleteIsJoined(g, chunks, file, n - 1);
      assert Placed(g, file, n - 1, chunks[n - 1]);
      var a := Start(g, n - 1);
      assert file[..a] + file[a..a + |chunks[n - 1]|] == file[..a + |chunks[n - 1]|];
    }
  }

  /** Both receivers are given the same chunk. */
  method Feed(g: Geometry, m: ChunkAssembler, d: DiskChunkAssembler, c: Chunk) returns (taken: bool, inMemory: Status, onDisk: Status)
    requires GeometryOk(g) && m.Valid() && d.Valid() && m.total == g.total == d.file.Length && m.count == g.count == d.count && m.sha == d.sha
    requires Refines(g, m.chunks, d.indices, d.file[..]) && m.received == d.received
    modifies m, d, d.file
    ensures m.Valid() && d.Valid() && Refines(g, m.chunks, d.indices, d.file[..]) && m.received == d.received
    ensures (taken <==> Fits(g, c)) && inMemory == onDisk
    ensures m.chunks == if taken && inMemory == Stored then old(m.chunks)[c.index := c.data] else old(m.chunks)
    ensures taken && c.sha.None? ==> inMemory == if c.index in old(m.chunks) then Duplicate else Stored
  {
    hide Start, Length, Fits, GeometryOk, Placed;
    taken, inMemory, onDisk := Fits(g, c), Invalid, Invalid;
    if taken {
      FitsIsPiece(g, c);
      ghost var file, chunks := d.file[..], m.chunks;
      inMemory := m.AddChunk(c.index, c.data, c.sha);
      onDisk := d.AddChunk(c.index, c.offset, c.data, c.sha);
      if inMemory == Stored {
        StoredRefines(g, chunks, file, c.index, c.data);
        assert d.indices == chunks.Keys + {c.index};
        assert d.file[..] == file[..c.offset] + c.data + file[c.offset + |c.data|..];
      }
    }
  }

  lemma StoredRefines(g: Geometry, chunks: map<nat, Bytes>, file: Bytes, i: nat, data: Bytes)
    requires GeometryOk(g) && Refines(g, chunks, chunks.Keys, file) && i !in chunks && i < g.count && |data| == Length(g, i)
    ensures Start(g, i) + |data| <= |file|
    ensures Refines(g, chunks[i := data], chunks.Keys + {i}, file[..Start(g, i)] + data + file[Start(g, i) + |data|..])
  {
    hide Start, Length, Placed, GeometryOk;
    PieceFits(g, i);
    JustPlaced(g, file, i, data);
    var after := chunks[i := data];
    forall j | j in after ensures Placed(g, file[..Start(g, i)] + data + file[Start(g, i) + |data|..], j, after[j]) {
      if j != i {
        WriteKeepsOthers(g, file, i, data, j, chunks[j]);
      }
    }
  }

  lemma PieceFits(g: Geometry, i: nat)
    requires GeometryOk(g) && i < g.count
    ensures Start(g, i) + Length(g, i) <= g.total
  {
    PiecesTile(g, i);
  }

  /** A chunk of this very payload. */
  predicate Genuine(g: Geometry, payload: Bytes, c: Chunk) {
    Fits(g, c) && |payload| == g.total && c.offset + |c.data| <= |payload| && payload[c.offset..c.offset + |c.data|] == c.data
  }

  /** Chunks in any order, with repetitions and with ones that are rejected. */
  method FeedAll(g: Geometry, m: ChunkAssembler, d: DiskChunkAssembler, cs: seq<Chunk>, ghost payload: Bytes)
    requires GeometryOk(g) && m.Valid() && d.Valid() && m.total == g.total == d.file.Length && m.count == g.count == d.count && m.sha == d.sha
    requires Refines(g, m.chunks, d.indices, d.file[..]) && m.received == d.received && |payload| == g.total
    requires forall i :: i in m.chunks ==> Placed(g, payload, i, m.chunks[i])
    requires forall c :: c in cs && Fits(g, c) ==> Genuine(g, payload, c)
    modifies m, d, d.file
    ensures m.Valid() && d.Valid() && Refines(g, m.chunks, d.indices, d.file[..]) && m.received == d.received
    ensures forall i :: i in m.chunks ==> Placed(g, payload, i, m.chunks[i])
    ensures forall i :: i in old(m.chunks) ==> i in m.chunks
    ensures forall c :: c in cs && Fits(g, c) && c.sha.None? ==> c.index in m.chunks
  {
    var k := 0;
    while k < |cs|
      invariant 0 <= k <= |cs|
      invariant m.Valid() && d.Valid() && Refines(g, m.chunks, d.indices, d.file[..]) && m.received == d.received
      invariant forall i :: i in m.chunks ==> Placed(g, payload, i, m.chunks[i])
      invariant forall i :: i in old(m.chunks) ==> i in m.chunks
      invariant forall j :: 0 <= j < k && Fits(g, cs[j]) && cs[j].sha.None? ==> cs[j].index in m.chunks
    {
      ghost var before := m.chunks;
      var taken, inMemory, onDisk := Feed(g, m, d, cs[k]);
      if taken && inMemory == Stored {
        assert Genuine(g, payload, cs[k]);
        FitsIsPiece(g, cs[k]);
        assert Placed(g, payload, cs[k].index, cs[k].data);
      }
      k := k + 1;
    }
  }

  /** Once complete, both receivers hold the same bytes, and from genuine chunks these are the payload. */
  lemma CompleteIsPayload(g: Geometry, chunks: map<nat, Bytes>, file: Bytes, payload: Bytes)
    requires GeometryOk(g) && Refines(g, chunks, chunks.Keys, file) && |payload| == g.total
    requires forall i :: 0 <= i < g.count ==> i in chunks
    ensures Joined(chunks, g.count) == file
    ensures (forall i :: i in chunks ==> Placed(g, payload, i, chunks[i])) ==> file == payload
  {
    CompleteIsJoined(g, chunks, file, g.count);
    if forall i :: i in chunks ==> Placed(g, payload, i, chunks[i]) {
      CompleteIsJoined(g, chunks, payload, g.count);
    }
  }

  /** Both receivers at the end, given the hash of the payload: they succeed together, what they return is
      the payload, and with nothing missing and nothing forged they do succeed. */
  method Conclude(g: Geometry, m: ChunkAssembler, d: DiskChunkAssembler, ghost payload: Bytes) returns (inMemory: Option<Bytes>, onDisk: Option<Bytes>)
    requires GeometryOk(g) && m.Valid() && d.Valid() && m.total == g.total == d.file.Length && m.count == g.count == d.count && m.sha == d.sha
    requires Refines(g, m.chunks, d.indices, d.file[..]) && |payload| == g.total
    requires m.expected == d.expected == Some(m.sha(payload)) && forall a: Bytes, b: Bytes :: m.sha(a) == m.sha(b) ==> a == b
    ensures inMemory == onDisk && (inMemory.Some? ==> inMemory.value == payload)
    ensures (forall i :: 0 <= i < g.count ==> i in m.chunks) && (forall i :: i in m.chunks ==> Placed(g, payload, i, m.chunks[i])) ==> inMemory.Some?
    ensures inMemory.Some? ==> forall i :: 0 <= i < g.count ==> i in m.chunks
  {
    hide GeometryOk, Placed;
    inMemory := m.Assemble();
    onDisk := d.Finish();
    if forall i :: 0 <= i < g.count ==> i in m.chunks {
      CompleteIsPayload(g, m.chunks, d.file[..], payload);
    }
  }
}
