/** Typed frames on the dedicated transfer channel: their encoding, and a reader that gets the stream
    in pieces of any size. */
module Framing {
  import opened Common

  type Bytes = seq<Byte>

  const PROTOCOL_MAJOR: nat := 2
  const KIND_CONTROL: nat := 1
  const KIND_PAYLOAD: nat := 2
  const CHECKSUM_NONE: nat := 0
  const CHECKSUM_SHA256: nat := 1
  const LENGTH_BYTES: nat := 4
  const COMMON_BYTES: nat := 4
  const BINARY_BYTES: nat := 33
  const SHA_BYTES: nat := 32
  const MAX_CONTROL_BYTES: nat := 16 * 1024 * 1024
  const MAX_PAYLOAD_BYTES: nat := 4 * 1024 * 1024
  const MAX_ENTRY_INDEX: nat := 200_000 - 1
  const MAX_LOGICAL_OFFSET: nat := 100 * 1024 * 1024 * 1024 * 1024
  const MAX_CONTROL_FRAME: nat := COMMON_BYTES + MAX_CONTROL_BYTES
  const MAX_BINARY_FRAME: nat := COMMON_BYTES + BINARY_BYTES + SHA_BYTES + MAX_PAYLOAD_BYTES
  const MAX_FRAME: nat := if MAX_CONTROL_FRAME > MAX_BINARY_FRAME then MAX_CONTROL_FRAME else MAX_BINARY_FRAME
  const READ_SIZE: nat := 64 * 1024

  datatype FrameError =
    | OutOfRange | NullTransfer | PayloadTooLong | OffsetTooLarge | ChecksumUnwanted | ChecksumMismatch | UnsupportedChecksum
    | ControlTooLong | BadControl | FrameTooShort | FrameTooLong | UnknownKind | UnsupportedMajor | UnsupportedFlags
    | HeaderTruncated | EntryTooLarge | LengthMismatch | Unusable

  /** A control message is kept as its text. A payload frame either carries its checksum or none. */
  datatype Frame =
    | Control(text: Bytes)
    | Payload(transfer: TransferId, entry: nat, offset: nat, payload: Bytes, checksum: Option<Bytes>)

  // ---------------------------------------------------------------- big-endian numbers

  function Pow256(w: nat): nat {
    if w == 0 then 1 else 256 * Pow256(w - 1)
  }

  function Big(n: nat, w: nat): (b: Bytes)
    ensures |b| == w
  {
    if w == 0 then [] else Big(n / 256, w - 1) + [n % 256]
  }

  function Value(b: Bytes): nat {
    if b == [] then 0 else Value(b[..|b| - 1]) * 256 + b[|b| - 1]
  }

  lemma {:induction false} ValueOfBig(n: nat, w: nat)
    requires n < Pow256(w)
    ensures Value(Big(n, w)) == n
  {
    if w > 0 {
      assert n / 256 < Pow256(w - 1);
      ValueOfBig(n / 256, w - 1);
      assert Big(n, w)[..w - 1] == Big(n / 256, w - 1);
    }
  }

  lemma {:induction false} BigOfValue(b: Bytes)
    ensures Value(b) < Pow256(|b|) && Big(Value(b), |b|) == b
  {
    if b != [] {
      BigOfValue(b[..|b| - 1]);
    }
  }

  lemma Powers()
    ensures Pow256(1) == 0x100 && Pow256(2) == 0x1_0000 && Pow256(4) == 0x1_0000_0000 && Pow256(8) == 0x1_0000_0000_0000_0000
    ensures Pow256(16) == 0x1_0000_0000_0000_0000_0000_0000_0000_0000
  {
    assert Pow256(3) == 0x100_0000;
    assert Pow256(5) == 0x100_0000_0000;
    assert Pow256(6) == 0x1_0000_0000_0000;
    assert Pow256(7) == 0x100_0000_0000_0000;
    assert Pow256(9) == 0x100_0000_0000_0000_0000;
    assert Pow256(10) == 0x1_0000_0000_0000_0000_0000;
    assert Pow256(11) == 0x100_0000_0000_0000_0000_0000;
    assert Pow256(12) == 0x1_0000_0000_0000_0000_0000_0000;
    assert Pow256(13) == 0x100_0000_0000_0000_0000_0000_0000;
    assert Pow256(14) == 0x1_0000_0000_0000_0000_0000_0000_0000;
    assert Pow256(15) == 0x100_0000_0000_0000_0000_0000_0000_0000;
  }

  // ---------------------------------------------------------------- encoding

  function PackFrame(kind: nat, body: Bytes): Bytes {
    Big(COMMON_BYTES + |body|, 4) + Big(kind, 1) + Big(PROTOCOL_MAJOR, 1) + Big(0, 2) + body
  }

  /** The control message as its JSON text, which the JSON library either gives or refuses. */
  function EncodeControl(json: Bytes -> bool, text: Bytes): Result<Bytes, FrameError> {
    if !json(text) then Err(BadControl)
    else if |text| > MAX_CONTROL_BYTES then Err(ControlTooLong)
    else Ok(PackFrame(KIND_CONTROL, text))
  }

  function ChecksumBytes(sha: Bytes -> Bytes, payload: Bytes, kind: nat, checksum: Option<Bytes>): Result<Bytes, FrameError> {
    if kind == CHECKSUM_NONE then
      if checksum.Some? then Err(ChecksumUnwanted) else Ok([])
    else if kind == CHECKSUM_SHA256 then
      var given := if checksum.None? then sha(payload) else checksum.value;
      if |given| != SHA_BYTES || given != sha(payload) then Err(ChecksumMismatch) else Ok(given)
    else Err(UnsupportedChecksum)
  }

  function BinaryHeader(transfer: TransferId, entry: nat, offset: nat, length: nat, kind: nat): (h: Bytes)
    ensures |h| == BINARY_BYTES
  {
    Big(transfer.bits, 16) + Big(entry, 4) + Big(offset, 8) + Big(length, 4) + Big(kind, 1)
  }

  function EncodePayload(sha: Bytes -> Bytes, transfer: TransferId, entry: int, offset: int, payload: Bytes, kind: nat, checksum: Option<Bytes>):
    Result<Bytes, FrameError>
  {
    if transfer.bits == 0 then Err(NullTransfer)
    else if !(0 <= entry <= MAX_ENTRY_INDEX) || !(0 <= offset <= MAX_LOGICAL_OFFSET) then Err(OutOfRange)
    else if |payload| > MAX_PAYLOAD_BYTES then Err(PayloadTooLong)
    else if offset + |payload| > MAX_LOGICAL_OFFSET then Err(OffsetTooLarge)
    else
      var sum := ChecksumBytes(sha, payload, kind, checksum);
      if sum.Err? then Err(sum.error)
      else Ok(PackFrame(KIND_PAYLOAD, BinaryHeader(transfer, entry, offset, |payload|, kind) + sum.value + payload))
  }

  // ---------------------------------------------------------------- the bytes of a frame

  lemma DivideTwice(n: nat, p: nat)
    requires p > 0
    ensures 256 * p > 0 && n / (256 * p) == n / 256 / p
  {
    var q := n / 256;
    var k := q / p;
    assert k * p <= q < (k + 1) * p;
    assert (256 * p) * k == 256 * (k * p) <= 256 * q <= n;
    assert n < 256 * (q + 1) <= 256 * ((k + 1) * p) == (256 * p) * (k + 1);
    Quotient(n, 256 * p, k);
  }

  lemma Quotient(n: nat, d: nat, k: nat)
    requires d > 0 && d * k <= n < d * (k + 1)
    ensures n / d == k
  {
    var q := n / d;
    assert d * q <= n < d * (q + 1);
    LessFactor(d, q, k + 1);
    LessFactor(d, k, q + 1);
  }

  lemma LessFactor(d: nat, a: nat, b: nat)
    ensures d * a < d * b ==> a < b
  {
    if a >= b {
      assert d * a == d * b + d * (a - b);
    }
  }

  lemma PositivePower(w: nat)
    ensures Pow256(w) > 0
  {
  }

  /** Numbers are written with their highest byte first. */
  lemma {:induction false} ByteOfBig(n: nat, w: nat, i: nat)
    requires i < w
    ensures Pow256(w - 1 - i) > 0 && Big(n, w)[i] == n / Pow256(w - 1 - i) % 256
  {
    PositivePower(w - 1 - i);
    if i < w - 1 {
      ByteOfBig(n / 256, w - 1, i);
      PositivePower(w - 2 - i);
      DivideTwice(n, Pow256(w - 2 - i));
      assert Big(n, w)[i] == Big(n / 256, w - 1)[i];
    }
  }

  lemma FourBytes(n: nat)
    requires n < 0x1_0000_0000
    ensures Big(n, 4) == [n / 0x100_0000, n / 0x1_0000 % 256, n / 0x100 % 256, n % 256]
  {
    ByteOfBig(n, 4, 0);
    ByteOfBig(n, 4, 1);
    ByteOfBig(n, 4, 2);
    ByteOfBig(n, 4, 3);
    assert Pow256(3) == 0x100_0000 && Pow256(2) == 0x1_0000 && Pow256(1) == 0x100 && Pow256(0) == 1;
  }

  /** A frame, byte by byte: the length of what follows, the kind, the protocol's major version, two zero
      bytes, and the body. */
  lemma FrameBytes(kind: nat, body: Bytes)
    requires kind < 256 && |body| + 4 < 0x1_0000_0000
    ensures var b := PackFrame(kind, body); var n := |body| + 4;
      && |b| == |body| + 8 && b[0] == n / 0x100_0000 && b[1] == n / 0x1_0000 % 256 && b[2] == n / 0x100 % 256 && b[3] == n % 256
      && b[4] == kind && b[5] == 2 && b[6] == 0 && b[7] == 0 && b[8..] == body
  {
    var b := PackFrame(kind, body);
    FourBytes(COMMON_BYTES + |body|);
    assert Big(kind, 1) == [kind] && Big(PROTOCOL_MAJOR, 1) == [2] && Big(0, 2) == [0, 0];
    assert b == Big(COMMON_BYTES + |body|, 4) + ([kind, 2, 0, 0] + body);
    assert b[4..8] == [kind, 2, 0, 0];
  }

  /** The header of a payload frame, byte by byte: transfer, entry, offset, length and kind of checksum. */
  lemma HeaderBytes(transfer: TransferId, entry: nat, offset: nat, length: nat, kind: nat, i: nat)
    requires i < 33
    ensures var h := BinaryHeader(transfer, entry, offset, length, kind);
      && |h| == 33
      && (i < 16 ==> Pow256(15 - i) > 0 && h[i] == transfer.bits / Pow256(15 - i) % 256)
      && (16 <= i < 20 ==> Pow256(19 - i) > 0 && h[i] == entry / Pow256(19 - i) % 256)
      && (20 <= i < 28 ==> Pow256(27 - i) > 0 && h[i] == offset / Pow256(27 - i) % 256)
      && (28 <= i < 32 ==> Pow256(31 - i) > 0 && h[i] == length / Pow256(31 - i) % 256)
      && (i == 32 ==> h[i] == kind % 256)
  {
    if i < 16 {
      ByteOfBig(transfer.bits, 16, i);
    } else if i < 20 {
      ByteOfBig(entry, 4, i - 16);
    } else if i < 28 {
      ByteOfBig(offset, 8, i - 20);
    } else if i < 32 {
      ByteOfBig(length, 4, i - 28);
    } else {
      assert Big(kind, 1) == [kind % 256];
    }
  }

  /** What a sent frame looks like on the wire. */
  lemma WireBytes(c: Codec, f: Frame)
    requires Sendable(c, f)
    ensures Encode(c, f).Ok?
    ensures var b := Encode(c, f).value; match f
      case Control(text) => |b| == 8 + |text| && b[4] == 1 && b[5] == 2 && b[8..] == text
      case Payload(transfer, entry, offset, payload, checksum) =>
        var sum := if checksum.Some? then checksum.value else [];
        && |b| == 41 + |sum| + |payload| && b[4] == 2 && b[5] == 2
        && b[8..41] == BinaryHeader(transfer, entry, offset, |payload|, if checksum.Some? then 1 else 0)
        && b[41..41 + |sum|] == sum && b[41 + |sum|..] == payload
    ensures var b := Encode(c, f).value; var n := |b| - 4;
      b[0] == n / 0x100_0000 && b[1] == n / 0x1_0000 % 256 && b[2] == n / 0x100 % 256 && b[3] == n % 256 && b[6] == 0 && b[7] == 0
  {
    hide Big, PackFrame, BinaryHeader;
    match f
    case Control(text) => FrameBytes(KIND_CONTROL, text);
    case Payload(transfer, entry, offset, payload, checksum) =>
      var sum := if checksum.Some? then checksum.value else [];
      var head := BinaryHeader(transfer, entry, offset, |payload|, if checksum.Some? then 1 else 0);
      var body := head + sum + payload;
      FrameBytes(KIND_PAYLOAD, body);
      var b := Encode(c, f).value;
      assert b == PackFrame(KIND_PAYLOAD, body);
      assert b[8..41] == b[8..][..33] == head;
      assert b[41..41 + |sum|] == b[8..][33..33 + |sum|] == sum;
      assert b[41 + |sum|..] == b[8..][33 + |sum|..] == payload;
  }

  // ---------------------------------------------------------------- decoding

  function DecodeControl(json: Bytes -> bool, body: Bytes): Result<Frame, FrameError> {
    if |body| > MAX_CONTROL_BYTES then Err(ControlTooLong)
    else if !json(body) then Err(BadControl)
    else Ok(Control(body))
  }

  function DecodePayload(sha: Bytes -> Bytes, body: Bytes): Result<Frame, FrameError> {
    if |body| < BINARY_BYTES then Err(HeaderTruncated)
    else
      var transfer, entry, offset := Value(body[..16]), Value(body[16..20]), Value(body[20..28]);
      var length, kind := Value(body[28..32]), Value(body[32..33]);
      if transfer == 0 then Err(NullTransfer)
      else if length > MAX_PAYLOAD_BYTES then Err(PayloadTooLong)
      else if entry > MAX_ENTRY_INDEX then Err(EntryTooLarge)
      else if offset > MAX_LOGICAL_OFFSET || offset + length > MAX_LOGICAL_OFFSET then Err(OffsetTooLarge)
      else if kind != CHECKSUM_NONE && kind != CHECKSUM_SHA256 then Err(UnsupportedChecksum)
      else
        var sumLength := if kind == CHECKSUM_SHA256 then SHA_BYTES else 0;
        if |body| != BINARY_BYTES + sumLength + length then Err(LengthMismatch)
        else
          var sum := body[BINARY_BYTES..BINARY_BYTES + sumLength];
          var payload := body[BINARY_BYTES + sumLength..];
          if sum != [] && sum != sha(payload) then Err(ChecksumMismatch)
          else Ok(Payload(Uuid(transfer), entry, offset, payload, if sum == [] then None else Some(sum)))
  }

  /** What the start of a buffer says: not enough yet, a protocol error, or a frame and the rest. */
  datatype Parse = NeedMore | Bad(error: FrameError) | Got(frame: Frame, rest: Bytes)

  datatype Codec = Codec(json: Bytes -> bool, sha: Bytes -> Bytes)

  function HeaderFault(b: Bytes): Option<FrameError>
    requires |b| >= LENGTH_BYTES + COMMON_BYTES
  {
    var kind := Value(b[4..5]);
    if kind != KIND_CONTROL && kind != KIND_PAYLOAD then Some(UnknownKind)
    else if Value(b[5..6]) != PROTOCOL_MAJOR then Some(UnsupportedMajor)
    else if Value(b[6..8]) != 0 then Some(UnsupportedFlags)
    else if Value(b[..4]) > (if kind == KIND_CONTROL then MAX_CONTROL_FRAME else MAX_BINARY_FRAME) then Some(FrameTooLong)
    else None
  }

  function ParseBuffer(c: Codec, b: Bytes): Parse {
    if |b| < LENGTH_BYTES then NeedMore
    else
      var following := Value(b[..4]);
      if following < COMMON_BYTES then Bad(FrameTooShort)
      else if following > MAX_FRAME then Bad(FrameTooLong)
      else if |b| < LENGTH_BYTES + COMMON_BYTES then NeedMore
      else if HeaderFault(b).Some? then Bad(HeaderFault(b).value)
      else if |b| < LENGTH_BYTES + following then NeedMore
      else
        var body := b[LENGTH_BYTES + COMMON_BYTES..LENGTH_BYTES + following];
        var frame := if Value(b[4..5]) == KIND_CONTROL then DecodeControl(c.json, body) else DecodePayload(c.sha, body);
        if frame.Err? then Bad(frame.error) else Got(frame.value, b[LENGTH_BYTES + following..])
  }

  // ---------------------------------------------------------------- round trips


  /** What a sender may put on the wire. */
  predicate Sendable(c: Codec, f: Frame) {
    match f
    case Control(text) => c.json(text) && |text| <= MAX_CONTROL_BYTES
    case Payload(transfer, entry, offset, payload, checksum) =>
      && 0 < transfer.bits < 0x1_0000_0000_0000_0000_0000_0000_0000_0000 && entry <= MAX_ENTRY_INDEX && offset + |payload| <= MAX_LOGICAL_OFFSET
      && |payload| <= MAX_PAYLOAD_BYTES && (checksum.Some? ==> checksum.value == c.sha(payload) && |checksum.value| == SHA_BYTES)
  }

  function Encode(c: Codec, f: Frame): Result<Bytes, FrameError> {
    match f
    case Control(text) => EncodeControl(c.json, text)
    case Payload(transfer, entry, offset, payload, checksum) =>
      EncodePayload(c.sha, transfer, entry, offset, payload, if checksum.None? then CHECKSUM_NONE else CHECKSUM_SHA256, checksum)
  }

  /** What an encoder refuses: a control message that is no JSON or too long; a payload of no transfer, out of
      range, too long, or with a checksum it should not have, of an unknown kind, or that is not its hash. */
  lemma EncodesExactly(c: Codec, text: Bytes, transfer: TransferId, entry: int, offset: int, payload: Bytes, kind: nat, checksum: Option<Bytes>)
    ensures EncodeControl(c.json, text).Ok? <==> c.json(text) && |text| <= 16_777_216
    ensures EncodePayload(c.sha, transfer, entry, offset, payload, kind, checksum).Ok? <==>
      && transfer.bits != 0 && 0 <= entry <= 199_999 && 0 <= offset && |payload| <= 4_194_304 && offset + |payload| <= 109_951_162_777_600
      && (if kind == 0 then checksum.None?
          else kind == 1 && |c.sha(payload)| == 32 && (checksum.Some? ==> checksum.value == c.sha(payload)))
  {
  }

  /** A frame that announces more than any frame may have is refused as soon as its length is there, and one
      that announces less than its own header as well. */
  lemma LengthRefused(c: Codec, b: Bytes)
    requires |b| >= 4
    ensures Value(b[..4]) > 16_777_220 ==> ParseBuffer(c, b) == Bad(FrameTooLong)
    ensures Value(b[..4]) < 4 ==> ParseBuffer(c, b) == Bad(FrameTooShort)
  {
  }

  /** The header fields of a packed frame read back as they were written. */
  lemma Unpacked(kind: nat, body: Bytes, rest: Bytes)
    requires kind < 256 && COMMON_BYTES + |body| < 0x1_0000_0000
    ensures var b := PackFrame(kind, body) + rest;
            && |b| == LENGTH_BYTES + COMMON_BYTES + |body| + |rest|
            && Value(b[..4]) == COMMON_BYTES + |body| && Value(b[4..5]) == kind && Value(b[5..6]) == PROTOCOL_MAJOR && Value(b[6..8]) == 0
            && b[8..8 + |body|] == body && b[8 + |body|..] == rest
  {
    hide Big, Value;
    var b := PackFrame(kind, body) + rest;
    Powers();
    ValueOfBig(COMMON_BYTES + |body|, 4);
    ValueOfBig(kind, 1);
    ValueOfBig(PROTOCOL_MAJOR, 1);
    ValueOfBig(0, 2);
    assert b[..4] == Big(COMMON_BYTES + |body|, 4);
    assert b[4..5] == Big(kind, 1);
    assert b[5..6] == Big(PROTOCOL_MAJOR, 1);
    assert b[6..8] == Big(0, 2);
  }

  lemma UnpackedHeader(transfer: TransferId, entry: nat, offset: nat, length: nat, kind: nat, tail: Bytes)
    requires transfer.bits < 0x1_0000_0000_0000_0000_0000_0000_0000_0000 && entry < 0x1_0000_0000 && offset < 0x1_0000_0000_0000_0000
    requires length < 0x1_0000_0000 && kind < 256
    ensures var b := BinaryHeader(transfer, entry, offset, length, kind) + tail;
            && Value(b[..16]) == transfer.bits && Value(b[16..20]) == entry && Value(b[20..28]) == offset && Value(b[28..32]) == length
            && Value(b[32..33]) == kind && b[33..] == tail
  {
    hide Big, Value;
    var b := BinaryHeader(transfer, entry, offset, length, kind) + tail;
    Powers();
    ValueOfBig(transfer.bits, 16);
    ValueOfBig(entry, 4);
    ValueOfBig(offset, 8);
    ValueOfBig(length, 4);
    ValueOfBig(kind, 1);
    assert b[..16] == Big(transfer.bits, 16);
    assert b[16..20] == Big(entry, 4);
    assert b[20..28] == Big(offset, 8);
    assert b[28..32] == Big(length, 4);
    assert b[32..33] == Big(kind, 1);
  }

  /** Decoding what was encoded gives the fields back and leaves what follows untouched. */
  lemma DecodeAfterEncode(c: Codec, f: Frame, rest: Bytes)
    requires Sendable(c, f)
    ensures Encode(c, f).Ok? && ParseBuffer(c, Encode(c, f).value + rest) == Got(f, rest)
  {
    hide Big, Value, PackFrame, BinaryHeader;
    match f
    case Control(text) =>
      Unpacked(KIND_CONTROL, text, rest);
    case Payload(transfer, entry, offset, payload, checksum) =>
      var kind := if checksum.None? then CHECKSUM_NONE else CHECKSUM_SHA256;
      var sum := if checksum.None? then [] else checksum.value;
      var body := BinaryHeader(transfer, entry, offset, |payload|, kind) + sum + payload;
      Unpacked(KIND_PAYLOAD, body, rest);
      PayloadBack(c, f);
  }

  lemma PayloadBack(c: Codec, f: Frame)
    requires f.Payload? && Sendable(c, f)
    ensures var kind := if f.checksum.None? then CHECKSUM_NONE else CHECKSUM_SHA256;
            var sum := if f.checksum.None? then [] else f.checksum.value;
            DecodePayload(c.sha, BinaryHeader(f.transfer, f.entry, f.offset, |f.payload|, kind) + sum + f.payload) == Ok(f)
  {
    hide Big, Value, BinaryHeader;
    var kind := if f.checksum.None? then CHECKSUM_NONE else CHECKSUM_SHA256;
    var sum := if f.checksum.None? then [] else f.checksum.value;
    var head := BinaryHeader(f.transfer, f.entry, f.offset, |f.payload|, kind);
    var body := head + sum + f.payload;
    UnpackedHeader(f.transfer, f.entry, f.offset, |f.payload|, kind, sum + f.payload);
    assert body == head + (sum + f.payload);
    assert body[33..33 + |sum|] == sum;
    assert body[33 + |sum|..] == f.payload;
  }

  lemma Repacked(b: Bytes)
    requires |b| >= LENGTH_BYTES + COMMON_BYTES && Value(b[..4]) >= COMMON_BYTES && |b| >= LENGTH_BYTES + Value(b[..4])
    requires Value(b[5..6]) == PROTOCOL_MAJOR && Value(b[6..8]) == 0
    ensures b == PackFrame(Value(b[4..5]), b[8..4 + Value(b[..4])]) + b[4 + Value(b[..4])..]
  {
    BigOfValue(b[..4]);
    BigOfValue(b[4..5]);
    BigOfValue(b[5..6]);
    BigOfValue(b[6..8]);
    var end := 4 + Value(b[..4]);
    assert b == b[..4] + b[4..5] + b[5..6] + b[6..8] + b[8..end] + b[end..];
  }

  lemma RepackedHeader(body: Bytes)
    requires |body| >= BINARY_BYTES
    ensures BinaryHeader(Uuid(Value(body[..16])), Value(body[16..20]), Value(body[20..28]), Value(body[28..32]), Value(body[32..33])) == body[..33]
    ensures Value(body[..16]) < 0x1_0000_0000_0000_0000_0000_0000_0000_0000
  {
    Powers();
    BigOfValue(body[..16]);
    BigOfValue(body[16..20]);
    BigOfValue(body[20..28]);
    BigOfValue(body[28..32]);
    BigOfValue(body[32..33]);
    assert body[..33] == body[..16] + body[16..20] + body[20..28] + body[28..32] + body[32..33];
  }

  lemma PayloadAgain(c: Codec, body: Bytes)
    requires DecodePayload(c.sha, body).Ok?
    ensures var f := DecodePayload(c.sha, body).value;
            && f.Payload? && Sendable(c, f)
            && var kind := if f.checksum.None? then CHECKSUM_NONE else CHECKSUM_SHA256;
            body == BinaryHeader(f.transfer, f.entry, f.offset, |f.payload|, kind) + (if f.checksum.None? then [] else f.checksum.value) + f.payload
  {
    hide Big, Value, BinaryHeader;
    RepackedHeader(body);
    var sumLength := if Value(body[32..33]) == CHECKSUM_SHA256 then SHA_BYTES else 0;
    assert body == body[..33] + body[33..33 + sumLength] + body[33 + sumLength..];
  }

  /** A frame has one encoding: whatever decodes to it is that encoding. */
  lemma EncodeAfterDecode(c: Codec, b: Bytes)
    requires ParseBuffer(c, b).Got?
    ensures var p := ParseBuffer(c, b); Sendable(c, p.frame) && Encode(c, p.frame).Ok? && b == Encode(c, p.frame).value + p.rest
  {
    hide Big, Value, PackFrame, BinaryHeader;
    Repacked(b);
    if Value(b[4..5]) == KIND_PAYLOAD {
      PayloadAgain(c, b[8..4 + Value(b[..4])]);
    }
  }

  // ---------------------------------------------------------------- the stream as a whole

  /** More bytes never change what the first ones already decided. */
  lemma ParseIsStable(c: Codec, b: Bytes, more: Bytes)
    ensures ParseBuffer(c, b).Bad? ==> ParseBuffer(c, b + more) == ParseBuffer(c, b)
    ensures ParseBuffer(c, b).Got? ==> ParseBuffer(c, b + more) == Got(ParseBuffer(c, b).frame, ParseBuffer(c, b).rest + more)
  {
    hide Value, DecodeControl, DecodePayload;
    var all := b + more;
    if |b| >= 4 {
      assert all[..4] == b[..4];
      if |b| >= 8 {
        assert all[4..5] == b[4..5] && all[5..6] == b[5..6] && all[6..8] == b[6..8];
        var end := 4 + Value(b[..4]);
        if 8 <= end <= |b| {
          assert all[8..end] == b[8..end];
          assert all[end..] == b[end..] + more;
        }
      }
    }
  }

  /** All frames of a stream, and the error that ends it, if any. */
  function Frames(c: Codec, b: Bytes): (r: (seq<Frame>, Option<FrameError>))
    decreases |b|
  {
    match ParseBuffer(c, b)
    case NeedMore => ([], None)
    case Bad(e) => ([], Some(e))
    case Got(f, rest) => var (fs, e) := Frames(c, rest); ([f] + fs, e)
  }

  /** What remains of a stream after its frames. */
  function Remainder(c: Codec, b: Bytes): Bytes
    decreases |b|
  {
    match ParseBuffer(c, b)
    case NeedMore => b
    case Bad(_) => b
    case Got(_, rest) => Remainder(c, rest)
  }

  /** The frames of a stream are those of its first part and then those of what is left with the rest. */
  lemma {:induction false} FramesOfMore(c: Codec, b: Bytes, more: Bytes)
    ensures var (fs, e) := Frames(c, b);
            var (gs, d) := Frames(c, Remainder(c, b) + more);
            Frames(c, b + more) == if e.Some? then (fs, e) else (fs + gs, d)
    decreases |b|
  {
    hide ParseBuffer;
    ParseIsStable(c, b, more);
    var p := ParseBuffer(c, b);
    if p.Got? {
      FrameTakesBytes(c, b);
      FramesOfMore(c, p.rest, more);
      FramesStep(c, b);
      FramesStep(c, b + more);
      assert Remainder(c, b) == Remainder(c, p.rest);
      assert [p.frame] + (Frames(c, p.rest).0 + Frames(c, Remainder(c, b) + more).0) == Frames(c, b).0 + Frames(c, Remainder(c, b) + more).0;
    } else if p.NeedMore? {
      assert Frames(c, b) == ([], None) && [] + Frames(c, b + more).0 == Frames(c, b + more).0;
    }
  }

  lemma FramesStep(c: Codec, b: Bytes)
    requires ParseBuffer(c, b).Got?
    ensures var p := ParseBuffer(c, b); Frames(c, b) == ([p.frame] + Frames(c, p.rest).0, Frames(c, p.rest).1)
  {
  }

  function EncodeAll(c: Codec, fs: seq<Frame>): Bytes
    requires forall f :: f in fs ==> Sendable(c, f)
  {
    if fs == [] then [] else (if Encode(c, fs[0]).Ok? then Encode(c, fs[0]).value else []) + EncodeAll(c, fs[1..])
  }

  /** Whatever frames are sent one after the other are the frames of the stream. */
  lemma {:induction false} FramesOfEncoded(c: Codec, fs: seq<Frame>)
    requires forall f :: f in fs ==> Sendable(c, f)
    ensures Frames(c, EncodeAll(c, fs)) == (fs, None)
  {
    hide ParseBuffer, Encode;
    if fs == [] {
      EmptyBuffer(c);
    } else {
      DecodeAfterEncode(c, fs[0], EncodeAll(c, fs[1..]));
      FramesOfEncoded(c, fs[1..]);
      assert EncodeAll(c, fs) == Encode(c, fs[0]).value + EncodeAll(c, fs[1..]);
      FramesStep(c, EncodeAll(c, fs));
      assert fs == [fs[0]] + fs[1..];
    }
  }

  lemma EmptyBuffer(c: Codec)
    ensures ParseBuffer(c, []) == NeedMore
  {
  }

  /** A frame that is not yet complete is shorter than the longest one. */
  lemma WaitingIsShort(c: Codec, b: Bytes)
    requires ParseBuffer(c, b).NeedMore?
    ensures |b| < LENGTH_BYTES + MAX_FRAME
  {
  }

  lemma FrameTakesBytes(c: Codec, b: Bytes)
    ensures ParseBuffer(c, b).Got? ==> |ParseBuffer(c, b).rest| + LENGTH_BYTES + COMMON_BYTES <= |b|
  {
  }

  // ---------------------------------------------------------------- the reader

  /** What the socket does when it is asked: bytes arrive, nothing happens in time, or the peer closed. */
  datatype Arrival = Chunk(bytes: Bytes) | Blocked | TimedOut | Closed

  datatype ReadResult = NoFrame | Delivered(frame: Frame) | Failed(error: FrameError) | ConnectionLost

  predicate ArrivalOk(a: Arrival) {
    a.Chunk? ==> 0 < |a.bytes| <= READ_SIZE
  }

  lemma NothingRead(c: Codec)
    ensures forall more: Bytes :: Frames(c, [] + more) == ([] + Frames(c, [] + more).0, Frames(c, [] + more).1)
  {
    forall more: Bytes ensures Frames(c, [] + more) == ([] + Frames(c, [] + more).0, Frames(c, [] + more).1) {
      assert [] + Frames(c, [] + more).0 == Frames(c, [] + more).0;
    }
  }

  class TypedFrameReader {
    const codec: Codec
    var buf: Bytes
    var failed: bool
    /** All bytes read so far, the frames handed out, and the error met. */
    ghost var stream: Bytes
    ghost var delivered: seq<Frame>
    ghost var fault: Option<FrameError>

    /** The buffer is the part of the stream not handed out yet, and never outgrows one frame and one read. */
    ghost predicate Valid()
      reads this
    {
      && |buf| < LENGTH_BYTES + MAX_FRAME + READ_SIZE && (failed <==> fault.Some?)
      && (!failed ==> forall more :: Frames(codec, stream + more) == (delivered + Frames(codec, buf + more).0, Frames(codec, buf + more).1))
      && (failed ==> forall more :: Frames(codec, stream + more) == (delivered, fault))
    }

    constructor (codec: Codec)
      ensures Valid() && this.codec == codec && stream == [] && delivered == [] && fault.None?
    {
      this.codec, buf, failed, stream, delivered, fault := codec, [], false, [], [], None;
      new;
      NothingRead(codec);
    }

    method TryParse() returns (r: ReadResult)
      requires Valid()
      modifies `buf, `failed, `delivered, `fault
      ensures Valid()
      ensures old(failed) ==> r == Failed(Unusable) && buf == old(buf) && delivered == old(delivered) && fault == old(fault)
      ensures !old(failed) ==> (r.NoFrame? <==> ParseBuffer(codec, old(buf)).NeedMore?)
      ensures r.NoFrame? ==> buf == old(buf) && !failed && delivered == old(delivered) && fault == old(fault)
      ensures r.Delivered? ==> delivered == old(delivered) + [r.frame] && !failed && fault == old(fault) && |buf| < |old(buf)|
      ensures !old(failed) && r.Failed? ==> delivered == old(delivered) && fault == Some(r.error)
      ensures !old(failed) && r.Delivered? ==> ParseBuffer(codec, old(buf)) == Got(r.frame, buf)
      ensures !old(failed) && r.Failed? ==> ParseBuffer(codec, old(buf)) == Bad(r.error)
      ensures !r.ConnectionLost?
    {
      hide ParseBuffer;
      if failed {
        return Failed(Unusable);
      }
      var p := ParseBuffer(codec, buf);
      FrameTakesBytes(codec, buf);
      forall more: Bytes
        ensures p.Bad? ==> Frames(codec, buf + more) == ([], Some(p.error)) && delivered + [] == delivered
        ensures p.Got? ==> Frames(codec, buf + more) == ([p.frame] + Frames(codec, p.rest + more).0, Frames(codec, p.rest + more).1)
        ensures p.Got? ==> delivered + Frames(codec, buf + more).0 == delivered + [p.frame] + Frames(codec, p.rest + more).0
      {
        ParseIsStable(codec, buf, more);
        if p.Got? {
          FramesStep(codec, buf + more);
        }
      }
      match p
      case NeedMore => r := NoFrame;
      case Bad(e) =>
        failed, fault := true, Some(e);
        r := Failed(e);
      case Got(f, rest) =>
        buf, delivered := rest, delivered + [f];
        r := Delivered(f);
    }

    /** Reading ends with the first arrival that completes a frame or makes the stream bad, or that is the end
        of the time or of the connection. */
    ghost predicate EndsWith(start: Bytes, arrivals: seq<Arrival>, used: nat, r: ReadResult)
      requires used <= |arrivals|
      reads `buf
    {
      && (forall k :: 0 <= k < used - 1 ==> arrivals[k].Chunk? || arrivals[k].Blocked?)
      && (forall k :: 0 <= k < used ==> WaitsAt(start, arrivals, k))
      && (r.ConnectionLost? <==> used > 0 && arrivals[used - 1].Closed?)
      && (r.NoFrame? ==> used == |arrivals| || (used > 0 && arrivals[used - 1].TimedOut?))
      && (r.Delivered? || r.Failed? ==> used == 0 || arrivals[used - 1].Chunk?)
      && var read := start + BytesOf(arrivals[..used]);
      match r
      case Delivered(f) => ParseBuffer(codec, read) == Got(f, buf)
      case Failed(e) => ParseBuffer(codec, read) == Bad(e)
      case _ => ParseBuffer(codec, read).NeedMore? && buf == read
    }

    /** The same before anything ended the reading. */
    ghost predicate ReadOn(start: Bytes, arrivals: seq<Arrival>, used: nat, r: ReadResult)
      requires used <= |arrivals|
      reads `buf
    {
      && (forall k :: 0 <= k < used - 1 ==> arrivals[k].Chunk? || arrivals[k].Blocked?)
      && (used > 0 ==> arrivals[used - 1].Chunk? || (r.NoFrame? && arrivals[used - 1].Blocked?))
      && (forall k :: 0 <= k < used ==> WaitsAt(start, arrivals, k))
      && var read := start + BytesOf(arrivals[..used]);
      match r
      case NoFrame => ParseBuffer(codec, read).NeedMore? && buf == read
      case Delivered(f) => ParseBuffer(codec, read) == Got(f, buf)
      case Failed(e) => ParseBuffer(codec, read) == Bad(e)
      case ConnectionLost => false
    }

    lemma WaitsHere(start: Bytes, arrivals: seq<Arrival>, k: nat)
      requires k <= |arrivals| && ParseBuffer(codec, start + BytesOf(arrivals[..k])).NeedMore?
      ensures WaitsAt(start, arrivals, k)
    {
    }

    ghost predicate WaitsAt(start: Bytes, arrivals: seq<Arrival>, k: nat)
      requires k <= |arrivals|
    {
      ParseBuffer(codec, start + BytesOf(arrivals[..k])).NeedMore?
    }

    /** Returns the next frame, or none when the time is over; what arrived of a frame is kept. */
    method ReadFrame(arrivals: seq<Arrival>) returns (r: ReadResult, used: nat)
      requires Valid() && forall a :: a in arrivals ==> ArrivalOk(a)
      modifies this
      ensures Valid() && used <= |arrivals| && stream == old(stream) + BytesOf(arrivals[..used])
      ensures old(failed) ==> r == Failed(Unusable) && buf == old(buf) && used == 0
      ensures r.Delivered? ==> delivered == old(delivered) + [r.frame] && !failed
      ensures !r.Delivered? ==> delivered == old(delivered)
      ensures r.Failed? ==> failed && (!old(failed) ==> fault == Some(r.error))
      ensures r.NoFrame? || r.ConnectionLost? ==> !failed && ParseBuffer(codec, buf).NeedMore?
      ensures !old(failed) ==> EndsWith(old(buf), arrivals, used, r)
    {
      hide ParseBuffer, Frames, BytesOf, WaitsAt, Remainder;
      used := 0;
      ghost var start := buf;
      assert BytesOf(arrivals[..0]) == [] by { NothingArrived(arrivals); }
      assert start + BytesOf(arrivals[..0]) == start;
      r := TryParse();
      while r.NoFrame? && used < |arrivals|
        invariant Valid() && used <= |arrivals| && stream == old(stream) + BytesOf(arrivals[..used]) && !r.ConnectionLost?
        invariant old(failed) ==> r == Failed(Unusable) && buf == old(buf) && used == 0
        invariant r.Delivered? ==> delivered == old(delivered) + [r.frame] && !failed
        invariant !r.Delivered? ==> delivered == old(delivered)
        invariant r.Failed? ==> failed && (!old(failed) ==> fault == Some(r.error))
        invariant r.NoFrame? ==> !failed && ParseBuffer(codec, buf).NeedMore?
        invariant !old(failed) ==> ReadOn(start, arrivals, used, r)
        decreases |arrivals| - used
      {
        var a := arrivals[used];
        used := used + 1;
        BytesOfMore(arrivals, used);
        ghost var before := start + BytesOf(arrivals[..used - 1]);
        WaitsHere(start, arrivals, used - 1);
        assert start + BytesOf(arrivals[..used]) == before + (if a.Chunk? then a.bytes else []);
        assert before + [] == before;
        if a.TimedOut? {
          return;
        }
        if a.Closed? {
          r := ConnectionLost;
          return;
        }
        if a.Chunk? {
          assert ArrivalOk(a);
          WaitingIsShort(codec, buf);
          Receive(a.bytes);
          r := TryParse();
        }
      }
    }

    method Receive(bytes: Bytes)
      requires Valid() && !failed && |buf| < LENGTH_BYTES + MAX_FRAME && |bytes| <= READ_SIZE
      modifies `buf, `stream
      ensures Valid() && buf == old(buf) + bytes && stream == old(stream) + bytes
    {
      hide Frames;
      forall more: Bytes
        ensures Frames(codec, stream + bytes + more) == (delivered + Frames(codec, buf + bytes + more).0, Frames(codec, buf + bytes + more).1)
      {
        assert stream + bytes + more == stream + (bytes + more);
        assert buf + bytes + more == buf + (bytes + more);
      }
      buf, stream := buf + bytes, stream + bytes;
    }
  }

  /** A reader that has nothing more to give before further bytes arrive. */
  ghost predicate Drained(r: TypedFrameReader)
    reads r
  {
    r.failed || ParseBuffer(r.codec, r.buf).NeedMore?
  }

  /** A drained reader has handed out exactly the frames of the stream up to its first error, however the
      stream was cut into reads; at any other moment it has handed out a prefix of them. */
  lemma DeliveredExactly(r: TypedFrameReader)
    requires r.Valid()
    ensures r.delivered <= Frames(r.codec, r.stream).0
    ensures Drained(r) ==> (r.delivered, r.fault) == Frames(r.codec, r.stream)
  {
    hide ParseBuffer;
    assert r.stream + [] == r.stream && r.buf + [] == r.buf;
    assert Frames(r.codec, r.stream + []) == Frames(r.codec, r.stream);
    if !r.failed {
      assert Frames(r.codec, r.buf + []) == Frames(r.codec, r.buf);
      assert r.delivered + [] == r.delivered;
    }
  }

  /** Two ways of cutting the same stream give the same frames and the same error. */
  lemma SegmentationIndependent(a: TypedFrameReader, b: TypedFrameReader)
    requires a.Valid() && b.Valid() && a.codec == b.codec && a.stream == b.stream && Drained(a) && Drained(b)
    ensures a.delivered == b.delivered && a.fault == b.fault
  {
    DeliveredExactly(a);
    DeliveredExactly(b);
  }

  /** What was sent as frames is received as the same frames. */
  lemma ReceivedAsSent(r: TypedFrameReader, fs: seq<Frame>)
    requires r.Valid() && Drained(r) && (forall f :: f in fs ==> Sendable(r.codec, f)) && r.stream == EncodeAll(r.codec, fs)
    ensures r.delivered == fs && r.fault.None?
  {
    DeliveredExactly(r);
    FramesOfEncoded(r.codec, fs);
  }

  function BytesOf(arrivals: seq<Arrival>): Bytes {
    if arrivals == [] then []
    else BytesOf(arrivals[..|arrivals| - 1]) + (if arrivals[|arrivals| - 1].Chunk? then arrivals[|arrivals| - 1].bytes else [])
  }

  lemma NothingArrived(arrivals: seq<Arrival>)
    ensures BytesOf(arrivals[..0]) == []
  {
  }

  lemma BytesOfMore(arrivals: seq<Arrival>, n: nat)
    requires 0 < n <= |arrivals|
    ensures BytesOf(arrivals[..n]) == BytesOf(arrivals[..n - 1]) + (if arrivals[n - 1].Chunk? then arrivals[n - 1].bytes else [])
  {
    assert arrivals[..n][..n - 1] == arrivals[..n - 1];
  }
}
