/** The record layer's wire forms: the 31-byte header, frames, and the per-record nonce. */
module Record {
  import opened Prelude

  const HEADER_LEN: nat := 31
  const MAX_CIPHERTEXT_LEN: nat := 4096
  const TAG_LEN: nat := 16
  const MAX_RECORDS_PER_EPOCH: nat := 0x1_0000_0000

  datatype RecordKind = Data | Control

  datatype Header = Header(
    kind: RecordKind,
    keyPhase: bool,
    padded: bool,
    sessionId: Bytes,
    epoch: nat,
    number: nat,
    ciphertextLen: nat
  ) {
    /** The fields fit their places and the length is one the receiver accepts. */
    predicate Valid() {
      && |sessionId| == 16
      && epoch < U32_LIMIT
      && number < U64_LIMIT
      && TAG_LEN <= ciphertextLen <= MAX_CIPHERTEXT_LEN
    }
  }

  /** Version 1 in the high four bits, then kind, key phase, padding and a reserved zero bit. */
  function Flags(kind: RecordKind, keyPhase: bool, padded: bool): byte {
    0x10
    + (if kind == Control then 0x08 else 0)
    + (if keyPhase then 0x04 else 0)
    + (if padded then 0x02 else 0)
  }

  function EncodeHeader(h: Header): Bytes {
    [Flags(h.kind, h.keyPhase, h.padded)]
    + h.sessionId
    + BigEndian(h.epoch, 4)
    + BigEndian(h.number, 8)
    + BigEndian(h.ciphertextLen, 2)
  }

  function ParseHeader(encoded: Bytes): Result<Header, string> {
    if |encoded| < HEADER_LEN then Err("truncated record header")
    else if encoded[0] / 16 != 1 || encoded[0] % 2 != 0 then Err("invalid record version or flags")
    else
      var ciphertextLen := FromBigEndian(encoded[29..31]);
      if !(TAG_LEN <= ciphertextLen <= MAX_CIPHERTEXT_LEN) then Err("invalid ciphertext length")
      else Ok(Header(
        if encoded[0] / 8 % 2 != 0 then Control else Data,
        encoded[0] / 4 % 2 != 0,
        encoded[0] / 2 % 2 != 0,
        encoded[1..17],
        FromBigEndian(encoded[17..21]),
        FromBigEndian(encoded[21..29]),
        ciphertextLen))
  }

  lemma FlagsParse(kind: RecordKind, keyPhase: bool, padded: bool)
    ensures var f := Flags(kind, keyPhase, padded);
            && f / 16 == 1 && f % 2 == 0
            && (f / 8 % 2 != 0 <==> kind == Control)
            && (f / 4 % 2 != 0 <==> keyPhase)
            && (f / 2 % 2 != 0 <==> padded)
  {
  }

  lemma FlagsCanonical(f: byte)
    requires f / 16 == 1 && f % 2 == 0
    ensures f == Flags(if f / 8 % 2 != 0 then Control else Data, f / 4 % 2 != 0, f / 2 % 2 != 0)
  {
  }

  lemma HeaderLayout(h: Header, rest: Bytes)
    requires |h.sessionId| == 16
    ensures var b := EncodeHeader(h) + rest;
            && |b| == HEADER_LEN + |rest|
            && b[0] == Flags(h.kind, h.keyPhase, h.padded)
            && b[1..17] == h.sessionId
            && b[17..21] == BigEndian(h.epoch, 4)
            && b[21..29] == BigEndian(h.number, 8)
            && b[29..31] == BigEndian(h.ciphertextLen, 2)
            && b[31..] == rest
  {
  }

  /** Every header the sender can build is read back, whatever follows it. */
  lemma HeaderRoundTrip(h: Header, rest: Bytes)
    requires h.Valid()
    ensures ParseHeader(EncodeHeader(h) + rest) == Ok(h)
  {
    HeaderLayout(h, rest);
    FlagsParse(h.kind, h.keyPhase, h.padded);
    IntegersDecode(h.epoch);
    IntegersDecode(h.number);
    IntegersDecode(h.ciphertextLen);
  }

  /** The parser accepts nothing but encodings: no two byte strings read as one header. */
  lemma HeaderCanonical(encoded: Bytes)
    requires ParseHeader(encoded).Ok?
    ensures var h := ParseHeader(encoded).value;
            h.Valid() && encoded[..HEADER_LEN] == EncodeHeader(h)
  {
    var h := ParseHeader(encoded).value;
    PowValues();
    FlagsCanonical(encoded[0]);
    BigEndianEncodes(encoded[17..21]);
    BigEndianEncodes(encoded[21..29]);
    BigEndianEncodes(encoded[29..31]);
    assert encoded[..31] == [encoded[0]] + encoded[1..17] + encoded[17..21] + encoded[21..29] + encoded[29..31];
  }

  /** The client's header test for the record it expects at this epoch, number and kind. */
  predicate ClientAcceptsHeader(encoded: Bytes, sessionId: Bytes, epoch: nat, number: nat, control: bool) {
    && |encoded| >= HEADER_LEN + TAG_LEN
    && encoded[0] == Flags(if control then Control else Data, epoch % 2 != 0, false)
    && encoded[1..17] == sessionId
    && FromBigEndian(encoded[17..21]) == epoch
    && FromBigEndian(encoded[21..29]) == number
    && FromBigEndian(encoded[29..31]) == |encoded| - HEADER_LEN
  }

  /** What the server seals, the client's header test accepts exactly when the record is not marked
      padded; the client has no other use for the padding flag. */
  lemma ClientAcceptsUnpaddedOnly(h: Header, ciphertext: Bytes)
    requires h.Valid() && h.keyPhase == (h.epoch % 2 != 0) && |ciphertext| == h.ciphertextLen
    ensures ClientAcceptsHeader(EncodeHeader(h) + ciphertext, h.sessionId, h.epoch, h.number, h.kind == Control)
            <==> !h.padded
  {
    HeaderLayout(h, ciphertext);
    IntegersDecode(h.epoch);
    IntegersDecode(h.number);
    IntegersDecode(h.ciphertextLen);
  }

  // ---- Frames ----

  datatype Frame = Frame(frameType: byte, flags: byte, body: Bytes)

  function FrameBytes(f: Frame): Bytes {
    [f.frameType, f.flags] + BigEndian(|f.body|, 2) + f.body
  }

  function FramesBytes(frames: seq<Frame>): Bytes {
    if frames == [] then [] else FrameBytes(frames[0]) + FramesBytes(frames[1..])
  }

  predicate Known(kind: RecordKind, frameType: byte) {
    match kind
    case Data => frameType <= 0x06
    case Control => 0x01 <= frameType <= 0x13
  }

  predicate Critical(kind: RecordKind, frameType: byte) {
    !Known(kind, frameType) && frameType >= 0x80
  }

  /** The control frames that must be alone in their record. */
  predicate SecurityCritical(f: Frame) {
    0x04 <= f.frameType <= 0x11
  }

  /** What parsing means: the known frames in order; unknown optional frames are skipped, and an
      unknown critical frame or a truncation fails the record. */
  function Frames(plaintext: Bytes, kind: RecordKind): Result<seq<Frame>, string>
    decreases |plaintext|
  {
    if |plaintext| == 0 then Ok([])
    else if |plaintext| < 4 then Err("truncated frame header")
    else
      var length := FromBigEndian(plaintext[2..4]);
      if 4 + length > |plaintext| then Err("truncated frame body")
      else if Critical(kind, plaintext[0]) then Err("unsupported critical frame")
      else
        var rest :- Frames(plaintext[4 + length..], kind);
        Ok(if Known(kind, plaintext[0])
           then [Frame(plaintext[0], plaintext[1], plaintext[4..4 + length])] + rest
           else rest)
  }

  /** The outcome once `parsed` was read and the remaining input parses as `rest`. */
  function After(parsed: seq<Frame>, rest: Result<seq<Frame>, string>): Result<seq<Frame>, string> {
    match rest
    case Ok(frames) => Ok(parsed + frames)
    case Err(e) => Err(e)
  }

  lemma AfterOne(parsed: seq<Frame>, frame: Frame, rest: Result<seq<Frame>, string>)
    ensures After(parsed, After([frame], rest)) == After(parsed + [frame], rest)
    ensures After([], rest) == rest
  {
    if rest.Ok? {
      assert parsed + ([frame] + rest.value) == parsed + [frame] + rest.value;
      assert [] + rest.value == rest.value;
    }
  }

  method ParseFrames(plaintext: Bytes, kind: RecordKind) returns (r: Result<seq<Frame>, string>)
    ensures r == Frames(plaintext, kind)
  {
    var frames: seq<Frame> := [];
    var offset := 0;
    assert plaintext[0..] == plaintext;
    AfterOne([], Frame(0, 0, []), Frames(plaintext, kind));
    while offset < |plaintext|
      invariant 0 <= offset <= |plaintext|
      invariant Frames(plaintext, kind) == After(frames, Frames(plaintext[offset..], kind))
    {
      ghost var tail := plaintext[offset..];
      if |plaintext| - offset < 4 {
        return Err("truncated frame header");
      }
      var frameType := plaintext[offset];
      var flags := plaintext[offset + 1];
      var frameLen := FromBigEndian(plaintext[offset + 2..offset + 4]);
      assert tail[2..4] == plaintext[offset + 2..offset + 4];
      offset := offset + 4;
      var end := offset + frameLen;
      if end > |plaintext| {
        return Err("truncated frame body");
      }
      var body := plaintext[offset..end];
      assert tail[4..4 + frameLen] == body;
      assert tail[4 + frameLen..] == plaintext[end..];
      offset := end;
      var known := Known(kind, frameType);
      if !known && frameType >= 0x80 {
        return Err("unsupported critical frame");
      }
      if known {
        AfterOne(frames, Frame(frameType, flags, body), Frames(plaintext[offset..], kind));
        frames := frames + [Frame(frameType, flags, body)];
      }
    }
    assert plaintext[offset..] == [] && frames + [] == frames;
    return Ok(frames);
  }

  predicate Encodable(frames: seq<Frame>) {
    forall f | f in frames :: |f.body| < U16_LIMIT
  }

  function KnownFrames(frames: seq<Frame>, kind: RecordKind): seq<Frame> {
    if frames == [] then []
    else (if Known(kind, frames[0].frameType) then [frames[0]] else []) + KnownFrames(frames[1..], kind)
  }

  lemma FrameLayout(f: Frame, rest: Bytes)
    requires |f.body| < U16_LIMIT
    ensures var b := FrameBytes(f) + rest;
            && |b| == 4 + |f.body| + |rest|
            && b[0] == f.frameType && b[1] == f.flags
            && FromBigEndian(b[2..4]) == |f.body|
            && b[4..4 + |f.body|] == f.body
            && b[4 + |f.body|..] == rest
  {
    IntegersDecode(|f.body|);
    var b := FrameBytes(f) + rest;
    assert b[2..4] == BigEndian(|f.body|, 2);
  }

  /** Printing any list of frames and parsing it back gives the known ones in order; it fails exactly
      when one of them is an unknown critical frame. */
  lemma {:induction false} FramesRoundTrip(frames: seq<Frame>, kind: RecordKind)
    requires Encodable(frames)
    ensures Frames(FramesBytes(frames), kind).Ok? <==> forall f | f in frames :: !Critical(kind, f.frameType)
    ensures Frames(FramesBytes(frames), kind).Ok?
            ==> Frames(FramesBytes(frames), kind).value == KnownFrames(frames, kind)
    decreases |frames|
  {
    if frames != [] {
      FrameLayout(frames[0], FramesBytes(frames[1..]));
      FramesRoundTrip(frames[1..], kind);
      assert forall f | f in frames :: f == frames[0] || f in frames[1..];
    }
  }

  lemma {:induction false} FramesBytesConcat(a: seq<Frame>, b: seq<Frame>)
    ensures FramesBytes(a + b) == FramesBytes(a) + FramesBytes(b)
    decreases |a|
  {
    hide FrameBytes;
    if a == [] {
      assert a + b == b;
    } else {
      FramesBytesConcat(a[1..], b);
      assert (a + b)[1..] == a[1..] + b;
    }
  }

  /** The client's parser: no unknown-frame rules, and any flag bit fails the record. */
  function ClientFrames(value: Bytes): Result<seq<Frame>, string>
    decreases |value|
  {
    if |value| == 0 then Ok([])
    else if |value| < 4 then Err("truncated frame")
    else
      var length := FromBigEndian(value[2..4]);
      if value[1] != 0 || 4 + length > |value| then Err("invalid frame")
      else
        var rest :- ClientFrames(value[4 + length..]);
        Ok([Frame(value[0], 0, value[4..4 + length])] + rest)
  }

  /** On what the other side sends -- known frames without flags -- the two parsers agree. */
  lemma {:induction false} ParsersAgree(frames: seq<Frame>, kind: RecordKind)
    requires Encodable(frames)
    requires forall f | f in frames :: Known(kind, f.frameType) && f.flags == 0
    ensures Frames(FramesBytes(frames), kind) == Ok(frames)
    ensures ClientFrames(FramesBytes(frames)) == Ok(frames)
    decreases |frames|
  {
    if frames != [] {
      FrameLayout(frames[0], FramesBytes(frames[1..]));
      ParsersAgree(frames[1..], kind);
      assert frames == [frames[0]] + frames[1..];
    }
  }

  // ---- What the parsers accept ----

  lemma FirstFrame(plaintext: Bytes)
    requires |plaintext| >= 4 && 4 + FromBigEndian(plaintext[2..4]) <= |plaintext|
    ensures var length := FromBigEndian(plaintext[2..4]);
            var f := Frame(plaintext[0], plaintext[1], plaintext[4..4 + length]);
            length < U16_LIMIT && plaintext == FrameBytes(f) + plaintext[4 + length..]
  {
    BigEndianEncodes(plaintext[2..4]);
    PowValues();
    var length := FromBigEndian(plaintext[2..4]);
    assert plaintext == plaintext[..2] + plaintext[2..4] + plaintext[4..4 + length] + plaintext[4 + length..];
  }

  /** The client's parser accepts exactly what printing frames without flags gives, and returns those frames. */
  lemma {:induction false} ClientFramesIff(b: Bytes, frames: seq<Frame>)
    ensures ClientFrames(b) == Ok(frames) <==>
            b == FramesBytes(frames) && Encodable(frames) && forall f | f in frames :: f.flags == 0
    decreases |b| + |frames|
  {
    hide FrameBytes;
    if frames != [] {
      if Encodable(frames) { FrameLayout(frames[0], FramesBytes(frames[1..])); }
      assert frames == [frames[0]] + frames[1..];
    }
    if |b| >= 4 && 4 + FromBigEndian(b[2..4]) <= |b| {
      FirstFrame(b);
      var length := FromBigEndian(b[2..4]);
      var rest := ClientFrames(b[4 + length..]);
      if frames != [] { ClientFramesIff(b[4 + length..], frames[1..]); }
      if rest.Ok? { assert ([Frame(b[0], 0, b[4..4 + length])] + rest.value)[1..] == rest.value; }
    }
  }

  /** The frames the server acts on or looks at: types up to 6 in a data record, 1 to 0x13 in a control record. */
  predicate Listed(kind: RecordKind, f: Frame) {
    if kind == Data then f.frameType <= 6 else 1 <= f.frameType <= 0x13
  }

  function AllListed(frames: seq<Frame>, kind: RecordKind): seq<Frame> {
    if frames == [] then []
    else (if Listed(kind, frames[0]) then [frames[0]] else []) + AllListed(frames[1..], kind)
  }

  /** The frames a plaintext is cut into. */
  function Cut(b: Bytes): seq<Frame>
    decreases |b|
  {
    if |b| < 4 || 4 + FromBigEndian(b[2..4]) > |b| then []
    else
      var length := FromBigEndian(b[2..4]);
      [Frame(b[0], b[1], b[4..4 + length])] + Cut(b[4 + length..])
  }

  ghost predicate Parses(b: Bytes, kind: RecordKind, frames: seq<Frame>, all: seq<Frame>) {
    && b == FramesBytes(all) && Encodable(all)
    && (forall f | f in all :: f.frameType < 0x80)
    && frames == AllListed(all, kind)
  }

  /** The server's parser accepts exactly the printed lists of frames none of which has a type of 0x80 or more, and
      returns the listed ones. */
  lemma {:induction false} FramesIff(b: Bytes, kind: RecordKind, frames: seq<Frame>)
    ensures Frames(b, kind) == Ok(frames) <==> exists all: seq<Frame> :: Parses(b, kind, frames, all)
  {
    if Frames(b, kind) == Ok(frames) {
      FramesCut(b, kind);
      assert Parses(b, kind, frames, Cut(b));
    }
    if all: seq<Frame> :| Parses(b, kind, frames, all) {
      FramesRoundTrip(all, kind);
      SameListed(all, kind);
    }
  }

  lemma {:induction false} SameListed(frames: seq<Frame>, kind: RecordKind)
    ensures KnownFrames(frames, kind) == AllListed(frames, kind)
  {
    if frames != [] { SameListed(frames[1..], kind); }
  }

  lemma {:induction false} FramesCut(b: Bytes, kind: RecordKind)
    requires Frames(b, kind).Ok?
    ensures Parses(b, kind, Frames(b, kind).value, Cut(b))
    decreases |b|
  {
    hide FrameBytes, Parses;
    if b == [] {
      ParsesNothing(kind);
    } else {
      FirstFrame(b);
      var length := FromBigEndian(b[2..4]);
      FramesCut(b[4 + length..], kind);
      ParsesMore(Frame(b[0], b[1], b[4..4 + length]), b[4 + length..], kind,
                 Frames(b[4 + length..], kind).value, Cut(b[4 + length..]));
    }
  }

  lemma ParsesNothing(kind: RecordKind)
    ensures Parses([], kind, [], [])
  {
  }

  lemma ParsesMore(f: Frame, rest: Bytes, kind: RecordKind, frames: seq<Frame>, all: seq<Frame>)
    requires Parses(rest, kind, frames, all) && |f.body| < U16_LIMIT && f.frameType < 0x80
    ensures Parses(FrameBytes(f) + rest, kind, if Listed(kind, f) then [f] + frames else frames, [f] + all)
  {
    hide FrameBytes;
    assert ([f] + all)[1..] == all && [] + frames == frames;
  }

  // ---- Nonces ----

  /** Exclusive or of the `bits` low-order bits of two numbers. */
  function Xor(a: nat, b: nat, bits: nat): nat {
    if bits == 0 then 0 else 2 * Xor(a / 2, b / 2, bits - 1) + (a % 2 + b % 2) % 2
  }

  lemma {:induction false} XorInRange(a: nat, b: nat, bits: nat)
    ensures Xor(a, b, bits) < Pow2(bits)
  {
    if bits > 0 { XorInRange(a / 2, b / 2, bits - 1); }
  }

  function Pow2(n: nat): nat {
    if n == 0 then 1 else 2 * Pow2(n - 1)
  }

  lemma XorLastBit(a: nat, b: nat, c: nat, high: nat, other: nat)
    requires 2 * high + (a % 2 + b % 2) % 2 == 2 * other + (a % 2 + c % 2) % 2
    ensures high == other && b % 2 == c % 2
  {
  }

  lemma {:induction false} XorCancels(a: nat, b: nat, c: nat, bits: nat)
    requires b < Pow2(bits) && c < Pow2(bits)
    requires Xor(a, b, bits) == Xor(a, c, bits)
    ensures b == c
  {
    if bits > 0 {
      XorLastBit(a, b, c, Xor(a / 2, b / 2, bits - 1), Xor(a / 2, c / 2, bits - 1));
      XorCancels(a / 2, b / 2, c / 2, bits - 1);
    }
  }

  function XorByte(a: byte, b: byte): byte {
    XorInRange(a, b, 8);
    assert Pow2(8) == 256;
    Xor(a, b, 8)
  }

  function Nonce(iv: Bytes, number: nat): (n: Bytes)
    requires |iv| == 12
    ensures |n| == 12
  {
    var encoded := BigEndian(number, 8);
    iv[..4] + seq(8, i requires 0 <= i < 8 => XorByte(iv[4 + i], encoded[i]))
  }

  method ComputeNonce(iv: Bytes, number: nat) returns (output: Bytes)
    requires |iv| == 12
    ensures output == Nonce(iv, number)
  {
    output := iv;
    var encoded := BigEndian(number, 8);
    var i := 0;
    while i < 8
      invariant 0 <= i <= 8 && |output| == 12
      invariant forall k | 0 <= k < 12 ::
                  output[k] == if 4 <= k < 4 + i then XorByte(iv[k], encoded[k - 4]) else iv[k]
    {
      output := output[4 + i := XorByte(output[4 + i], encoded[i])];
      i := i + 1;
    }
  }

  /** Under one key and initial vector, different record numbers give different nonces. */
  lemma NonceInjective(iv: Bytes, a: nat, b: nat)
    requires |iv| == 12 && a < U64_LIMIT && b < U64_LIMIT
    ensures Nonce(iv, a) == Nonce(iv, b) <==> a == b
  {
    if Nonce(iv, a) == Nonce(iv, b) {
      var ea, eb := BigEndian(a, 8), BigEndian(b, 8);
      assert Pow2(8) == 256;
      forall i | 0 <= i < 8
        ensures ea[i] == eb[i]
      {
        assert Nonce(iv, a)[4 + i] == Nonce(iv, b)[4 + i];
        XorCancels(iv[4 + i], ea[i], eb[i], 8);
      }
      assert ea == eb;
      IntegersDecode(a);
      IntegersDecode(b);
    }
  }

  /** Bit `i` of a number, the lowest first. */
  function BitOf(n: nat, i: nat): nat {
    if i == 0 then n % 2 else BitOf(n / 2, i - 1)
  }

  /** The exclusive or, bit by bit. */
  lemma {:induction false} XorBits(a: nat, b: nat, bits: nat, i: nat)
    requires i < bits
    ensures BitOf(Xor(a, b, bits), i) == if BitOf(a, i) == BitOf(b, i) then 0 else 1
    decreases i
  {
    var high, low := Xor(a / 2, b / 2, bits - 1), (a % 2 + b % 2) % 2;
    assert Xor(a, b, bits) == 2 * high + low && (2 * high + low) / 2 == high && (2 * high + low) % 2 == low;
    if i > 0 { XorBits(a / 2, b / 2, bits - 1, i - 1); }
  }

  /** Numbers below 2^bits are told apart by their bits. */
  lemma {:induction false} BitsDetermine(a: nat, b: nat, bits: nat)
    requires a < Pow2(bits) && b < Pow2(bits)
    requires forall i: nat | i < bits :: BitOf(a, i) == BitOf(b, i)
    ensures a == b
  {
    if bits > 0 {
      assert BitOf(a, 0) == BitOf(b, 0);
      forall i: nat | i < bits - 1 ensures BitOf(a / 2, i) == BitOf(b / 2, i) {
        assert BitOf(a, i + 1) == BitOf(b, i + 1);
      }
      BitsDetermine(a / 2, b / 2, bits - 1);
    }
  }

  /** The nonce of section 5.3 of RFC 8446: the first four bytes of the IV stay, and every bit of the last eight is
      the exclusive or of the IV's and the number's. */
  lemma NonceBits(iv: Bytes, number: nat, k: nat, i: nat)
    requires |iv| == 12 && k < 12 && i < 8
    ensures k < 4 ==> Nonce(iv, number)[k] == iv[k]
    ensures k >= 4 ==>
              BitOf(Nonce(iv, number)[k], i)
              == if BitOf(iv[k], i) == BitOf(BigEndian(number, 8)[k - 4], i) then 0 else 1
  {
    if k >= 4 { XorBits(iv[k], BigEndian(number, 8)[k - 4], 8, i); }
  }

  lemma {:induction false} BitRange(n: nat, i: nat)
    ensures BitOf(n, i) < 2 && BitOf(0, i) == 0
  {
    if i > 0 { BitRange(n / 2, i - 1); }
  }

  lemma XorLaws(a: byte, b: byte)
    ensures XorByte(a, 0) == a && XorByte(XorByte(a, b), b) == a
  {
    assert Pow2(8) == 256;
    forall i: nat | i < 8
      ensures BitOf(XorByte(a, 0), i) == BitOf(a, i)
      ensures BitOf(XorByte(XorByte(a, b), b), i) == BitOf(a, i)
    {
      BitRange(a, i);
      BitRange(b, i);
      XorBits(a, 0, 8, i);
      XorBits(a, b, 8, i);
      XorBits(XorByte(a, b), b, 8, i);
    }
    BitsDetermine(XorByte(a, 0), a, 8);
    BitsDetermine(XorByte(XorByte(a, b), b), a, 8);
  }

  /** Number 0 leaves the IV as it is, and a number applied twice gives it back. */
  lemma NonceUndone(iv: Bytes, number: nat)
    requires |iv| == 12
    ensures Nonce(iv, 0) == iv && Nonce(Nonce(iv, number), number) == iv
  {
    ZeroBytes(8);
    forall k | 0 <= k < 12
      ensures Nonce(iv, 0)[k] == iv[k] && Nonce(Nonce(iv, number), number)[k] == iv[k]
    {
      if k >= 4 { XorLaws(iv[k], BigEndian(number, 8)[k - 4]); }
    }
  }

  lemma {:induction false} ZeroBytes(size: nat)
    ensures forall i | 0 <= i < size :: BigEndian(0, size)[i] == 0
  {
    if size > 0 { ZeroBytes(size - 1); }
  }
}
