/** The server's half of a session: three epochs with their own windows and counters, and the rekey
    messages that move one into the next. Each operation is a function from the session to the session
    it leaves behind and its outcome; `RekeySession` performs the same operations in place. */
module Rekey {
  import opened Prelude
  import opened Record
  import opened ReplayWindow

  const SECOND: nat := 1_000_000_000
  const UPDATE_INTERVAL: nat := 600 * SECOND
  const UPDATE_RECORD_LIMIT: nat := 0x10_0000
  const UPDATE_BYTE_LIMIT: nat := 0x4000_0000
  const UPDATE_TIMEOUT: nat := 10 * SECOND
  const OLD_EPOCH_GRACE: nat := 3 * SECOND
  const OLD_EPOCH_RECORDS: nat := 128

  datatype Error =
    | PlaintextTooLarge
    | HardLimitReached
    | ContextMismatch
    | LengthMismatch
    | ReplayPrecheck
    | AuthenticationFailed
    | Replayed
    | DataCounterOverflow
    | ByteCounterOverflow
    | InvalidHeader
    | PendingControlOnly
    | GraceExpired
    | UnknownEpoch
    | UpdateTimedOut
    | ConcurrentUpdate
    | InvalidUpdateEpoch
    | EpochOverflow
    | InvalidUpdateTag
    | InvalidCommit
    | NotPending
    | CommitEpochMismatch
    | OtherRekeyPending
    | InvalidCommitTag
    | InvalidClientSignature
    | AllZeroSecret
    | MigrationDuringRekey
    | InvalidPathResponse

  type Digest = d: Bytes | |d| == 32 witness seq(32, _ => 0)

  /** The cryptographic library: arbitrary functions, of which nothing is assumed but their result sizes. */
  datatype Primitives = Primitives(
    sha256: Bytes -> Digest,
    hmac: (Bytes, Bytes) -> Digest,
    expand: (Digest, string, Bytes) -> Digest,
    aead: (Digest, nat, Bytes, Bytes) -> Bytes,
    verify: (Bytes, Digest, Bytes) -> bool,
    sign: (Bytes, Digest) -> Bytes,
    publicKey: Bytes -> Digest,
    diffieHellman: (Bytes, Bytes) -> Digest
  )

  /** A sealed record. It opens only for a receiver that holds the key it was sealed under and derives
      the same header; a forgery is a record under any other key. */
  datatype Sealed = Sealed(header: Header, key: Digest, plaintext: Bytes)

  datatype Receiver = Receiver(kind: RecordKind, sessionId: Bytes, epoch: nat, key: Digest, window: Window)

  datatype Sender = Sender(kind: RecordKind, sessionId: Bytes, epoch: nat, key: Digest, next: nat)

  datatype Epoch = Epoch(
    epoch: nat,
    secret: Digest,
    c2sData: Receiver,
    s2cData: Sender,
    c2sControl: Receiver,
    s2cControl: Sender
  ) {
    function Receiver(kind: RecordKind): Receiver {
      if kind == Data then c2sData else c2sControl
    }

    function WithReceiver(kind: RecordKind, r: Receiver): Epoch {
      if kind == Data then this.(c2sData := r) else this.(c2sControl := r)
    }

    function Window(kind: RecordKind): Window {
      Receiver(kind).window
    }
  }

  datatype Proof = Routine(context: Digest, confirmKey: Digest) | Full(context: Digest, confirmKey: Digest)

  datatype Pending = Pending(state: Epoch, proof: Proof)

  datatype Previous = Previous(state: Epoch, expiresAt: nat, remaining: nat)

  datatype Position = Current | Pending_ | Previous_

  datatype OpenedRecord = OpenedRecord(header: Header, plaintext: Bytes, position: Position)

  datatype Session = Session(
    id: Bytes,
    transcript: Digest,
    current: Epoch,
    pending: Option<Pending>,
    previous: Option<Previous>,
    epochStarted: nat,
    dataRecords: nat,
    plaintextBytes: nat,
    updateRequested: bool,
    updateDeadline: Option<nat>
  )

  // ---- Keys, transcripts and tags ----

  function Ascii(s: string): Bytes {
    seq(|s|, i requires 0 <= i < |s| => s[i] as int % 256)
  }

  /** The octets of a record as they travel and as they enter the transcript. */
  function RecordBytes(p: Primitives, r: Sealed): Bytes {
    EncodeHeader(r.header) + p.aead(r.key, r.header.number, EncodeHeader(r.header), r.plaintext)
  }

  function TranscriptNext(p: Primitives, transcript: Digest, r: Sealed): Digest {
    p.sha256(transcript + RecordBytes(p, r))
  }

  function EpochContext(sessionId: Bytes, epoch: nat): Bytes {
    sessionId + BigEndian(epoch, 4)
  }

  datatype Direction = C2S | S2C

  function Purpose(kind: RecordKind, direction: Direction): string {
    match (kind, direction)
    case (Data, C2S) => "data c2s"
    case (Data, S2C) => "data s2c"
    case (Control, C2S) => "control c2s"
    case (Control, S2C) => "control s2c"
  }

  function TrafficKey(p: Primitives, secret: Digest, sessionId: Bytes, epoch: nat, kind: RecordKind,
                      direction: Direction): Digest {
    p.expand(secret, Purpose(kind, direction), EpochContext(sessionId, epoch))
  }

  function NewEpoch(p: Primitives, sessionId: Bytes, epoch: nat, secret: Digest): Epoch {
    Epoch(
      epoch,
      secret,
      Receiver(Data, sessionId, epoch, TrafficKey(p, secret, sessionId, epoch, Data, C2S),
               Empty(DEFAULT_REPLAY_WINDOW)),
      Sender(Data, sessionId, epoch, TrafficKey(p, secret, sessionId, epoch, Data, S2C), 0),
      Receiver(Control, sessionId, epoch, TrafficKey(p, secret, sessionId, epoch, Control, C2S),
               Empty(DEFAULT_REPLAY_WINDOW)),
      Sender(Control, sessionId, epoch, TrafficKey(p, secret, sessionId, epoch, Control, S2C), 0))
  }

  function ConfirmationKey(p: Primitives, secret: Digest, sessionId: Bytes, epoch: nat): Digest {
    p.expand(secret, "epoch confirmation", EpochContext(sessionId, epoch))
  }

  datatype Tag = ServerAck | ClientCommit | ServerDone | ClientConfirm

  function TagName(tag: Tag): string {
    match tag
    case ServerAck => "server ack"
    case ClientCommit => "client commit"
    case ServerDone => "server done"
    case ClientConfirm => "client confirm"
  }

  function LabelledTag(p: Primitives, key: Digest, tag: Tag, context: Digest): Digest {
    p.hmac(key, Ascii(TagName(tag)) + context)
  }

  function UpdateInput(sessionId: Bytes, currentEpoch: nat, nextEpoch: nat, nonce: Bytes, transcript: Digest): Bytes {
    Ascii("RekaSerdoba/1 epoch update") + sessionId + BigEndian(currentEpoch, 4) + BigEndian(nextEpoch, 4)
    + nonce + transcript
  }

  // ---- Sealing and opening ----

  function HeaderFor(s: Sender, number: nat, plaintext: Bytes, padded: bool): Header {
    Header(s.kind, s.epoch % 2 != 0, padded, s.sessionId, s.epoch, number, |plaintext| + TAG_LEN)
  }

  /** Numbers are drawn before the limit is tested; past the limit the counter is pinned to it. */
  function Seal(s: Sender, plaintext: Bytes, padded: bool): (Sender, Result<Sealed, Error>) {
    if |plaintext| + TAG_LEN > MAX_CIPHERTEXT_LEN then (s, Err(PlaintextTooLarge))
    else if s.next >= MAX_RECORDS_PER_EPOCH then
      (s.(next := MAX_RECORDS_PER_EPOCH), Err(HardLimitReached))
    else (s.(next := s.next + 1), Ok(Sealed(HeaderFor(s, s.next, plaintext, padded), s.key, plaintext)))
  }

  function OpenAt(r: Receiver, record: Sealed): (Receiver, Result<Bytes, Error>) {
    var header := record.header;
    if header.kind != r.kind || header.sessionId != r.sessionId || header.epoch != r.epoch
       || header.keyPhase != (r.epoch % 2 != 0)
    then (r, Err(ContextMismatch))
    else if header.ciphertextLen != |record.plaintext| + TAG_LEN then (r, Err(LengthMismatch))
    else if !r.window.Plausible(header.number) then (r, Err(ReplayPrecheck))
    else if record.key != r.key then (r, Err(AuthenticationFailed))
    else
      var (window, accepted) := r.window.Commit(header.number);
      if accepted then (r.(window := window), Ok(record.plaintext)) else (r.(window := window), Err(Replayed))
  }

  function OpenFrom(e: Epoch, record: Sealed): (Epoch, Result<Bytes, Error>) {
    var (receiver, outcome) := OpenAt(e.Receiver(record.header.kind), record);
    (e.WithReceiver(record.header.kind, receiver), outcome)
  }

  function ExpirePrevious(s: Session, now: nat): Session {
    if s.previous.Some? && (s.previous.value.remaining == 0 || now >= s.previous.value.expiresAt)
    then s.(previous := None)
    else s
  }

  function CountData(s: Session, size: nat): (Session, Result<(), Error>) {
    if s.dataRecords + 1 >= U64_LIMIT then (s, Err(DataCounterOverflow))
    else
      var counted := s.(dataRecords := s.dataRecords + 1);
      if s.plaintextBytes + size >= U64_LIMIT then (counted, Err(ByteCounterOverflow))
      else (counted.(plaintextBytes := s.plaintextBytes + size), Ok(()))
  }

  function Open(before: Session, record: Sealed, now: nat): (Session, Result<OpenedRecord, Error>) {
    var s := ExpirePrevious(before, now);
    var header := record.header;
    if !header.Valid() then (s, Err(InvalidHeader))
    else if header.epoch == s.current.epoch then
      var (current, outcome) := OpenFrom(s.current, record);
      var after := s.(current := current);
      if outcome.Err? then (after, Err(outcome.error))
      else if header.kind == Data then
        var (counted, count) := CountData(after, |outcome.value|);
        (counted, if count.Ok? then Ok(OpenedRecord(header, outcome.value, Current)) else Err(count.error))
      else (after, Ok(OpenedRecord(header, outcome.value, Current)))
    else if s.pending.Some? && header.epoch == s.pending.value.state.epoch then
      if header.kind != Control then (s, Err(PendingControlOnly))
      else
        var (state, outcome) := OpenFrom(s.pending.value.state, record);
        var after := s.(pending := Some(s.pending.value.(state := state)));
        (after, if outcome.Ok? then Ok(OpenedRecord(header, outcome.value, Pending_)) else Err(outcome.error))
    else if s.previous.Some? && header.epoch == s.previous.value.state.epoch then
      var previous := s.previous.value;
      if previous.remaining == 0 || now >= previous.expiresAt then (s, Err(GraceExpired))
      else
        var (state, outcome) := OpenFrom(previous.state, record);
        if outcome.Ok? then
          (s.(previous := Some(previous.(state := state, remaining := previous.remaining - 1))),
           Ok(OpenedRecord(header, outcome.value, Previous_)))
        else (s.(previous := Some(previous.(state := state))), Err(outcome.error))
    else (s, Err(UnknownEpoch))
  }

  function SealControl(s: Session, plaintext: Bytes, padded: bool): (Session, Result<Sealed, Error>) {
    var (sender, outcome) := Seal(s.current.s2cControl, plaintext, padded);
    (s.(current := s.current.(s2cControl := sender)), outcome)
  }

  function SealData(s: Session, plaintext: Bytes, padded: bool): (Session, Result<Sealed, Error>) {
    var (counted, count) := CountData(s, |plaintext|);
    if count.Err? then (counted, Err(count.error))
    else
      var (sender, outcome) := Seal(counted.current.s2cData, plaintext, padded);
      (counted.(current := counted.current.(s2cData := sender)), outcome)
  }

  /** Seals a control frame and, when that succeeds, adds the record to the transcript. */
  function SealTranscribed(p: Primitives, s: Session, frameType: byte, body: Bytes): (Session, Result<Sealed, Error>) {
    var (sealed, outcome) := SealControl(s, FrameBytes(Frame(frameType, 0, body)), false);
    if outcome.Err? then (sealed, outcome)
    else (sealed.(transcript := TranscriptNext(p, s.transcript, outcome.value)), outcome)
  }

  // ---- Routine key update ----

  function New(p: Primitives, id: Bytes, secret: Digest, handshakeTranscript: Digest, now: nat): Session {
    Session(
      id,
      p.sha256(Ascii("RekaSerdoba/1 control transcript") + handshakeTranscript + id),
      NewEpoch(p, id, 0, secret),
      None, None, now, 0, 0, false, None)
  }

  function RequestUpdateIfDue(p: Primitives, s: Session, now: nat): (Session, Result<Option<Sealed>, Error>) {
    if s.updateDeadline.Some? && now >= s.updateDeadline.value then (s, Err(UpdateTimedOut))
    else if s.pending.Some? || s.updateRequested then (s, Ok(None))
    else if now < s.epochStarted + UPDATE_INTERVAL
         && s.dataRecords < UPDATE_RECORD_LIMIT
         && s.plaintextBytes < UPDATE_BYTE_LIMIT
    then (s, Ok(None))
    else
      var (sealed, outcome) := SealTranscribed(p, s, 0x04, BigEndian(s.current.epoch, 4));
      if outcome.Err? then (sealed, Err(outcome.error))
      else (sealed.(updateRequested := true, updateDeadline := Some(now + UPDATE_TIMEOUT)), Ok(Some(outcome.value)))
  }

  function AcceptUpdateInit(p: Primitives, s: Session, record: Sealed, body: Bytes, now: nat)
    : (Session, Result<Sealed, Error>)
  {
    if |body| != 72 || s.pending.Some? then (s, Err(ConcurrentUpdate))
    else
      var currentEpoch := FromBigEndian(body[0..4]);
      var nextEpoch := FromBigEndian(body[4..8]);
      var nonce := body[8..40];
      if currentEpoch != s.current.epoch then (s, Err(InvalidUpdateEpoch))
      else if currentEpoch + 1 >= U32_LIMIT then (s, Err(EpochOverflow))
      else if nextEpoch != currentEpoch + 1 then (s, Err(InvalidUpdateEpoch))
      else
        var input := UpdateInput(s.id, currentEpoch, nextEpoch, nonce, s.transcript);
        if body[40..72] != p.hmac(s.current.secret, input) then (s, Err(InvalidUpdateTag))
        else
          var context := p.sha256(input);
          var nextSecret := p.hmac(s.current.secret, context);
          var confirmKey := ConfirmationKey(p, nextSecret, s.id, nextEpoch);
          var noted := s.(transcript := TranscriptNext(p, s.transcript, record));
          var (sealed, ack) := SealTranscribed(p, noted, 0x06,
            BigEndian(nextEpoch, 4) + LabelledTag(p, confirmKey, ServerAck, context));
          if ack.Err? then (sealed, ack)
          else
            (ExpirePrevious(sealed.(
               pending := Some(Pending(NewEpoch(p, s.id, nextEpoch, nextSecret), Routine(context, confirmKey))),
               updateRequested := true,
               updateDeadline := Some(now + UPDATE_TIMEOUT)), now),
             ack)
  }

  /** Installs the pending epoch, keeps the old one for its grace period and seals DONE under the new
      epoch; shared by the two kinds of rekey, which differ only in the tag they check before. */
  function Rotate(p: Primitives, s: Session, record: Sealed, now: nat): (Session, Result<Sealed, Error>)
    requires s.pending.Some?
  {
    var pending := s.pending.value;
    var done := LabelledTag(p, pending.proof.confirmKey, ServerDone, pending.proof.context);
    var rotated := s.(
      transcript := TranscriptNext(p, s.transcript, record),
      current := pending.state,
      pending := None,
      previous := Some(Previous(s.current, now + OLD_EPOCH_GRACE, OLD_EPOCH_RECORDS)));
    var (sealed, outcome) := SealTranscribed(p, rotated, 0x08, BigEndian(pending.state.epoch, 4) + done);
    if outcome.Err? then (sealed, outcome)
    else
      (sealed.(epochStarted := now, dataRecords := 0, plaintextBytes := 0, updateRequested := false,
               updateDeadline := None),
       outcome)
  }

  function AcceptUpdateCommit(p: Primitives, s: Session, record: Sealed, body: Bytes, now: nat)
    : (Session, Result<Sealed, Error>)
  {
    if |body| != 36 then (s, Err(InvalidCommit))
    else if s.pending.None? then (s, Err(NotPending))
    else if FromBigEndian(body[0..4]) != s.pending.value.state.epoch then (s, Err(CommitEpochMismatch))
    else if s.pending.value.proof.Full? then (s, Err(OtherRekeyPending))
    else
      var proof := s.pending.value.proof;
      if body[4..36] != LabelledTag(p, proof.confirmKey, ClientCommit, proof.context)
      then (s, Err(InvalidCommitTag))
      else Rotate(p, s, record, now)
  }

  // ---- Full rekey ----

  datatype Stage = ClientSigned | ServerSigned | KeyContext

  function StageName(stage: Stage): string {
    match stage
    case ClientSigned => "RekaSerdoba/1 full rekey client"
    case ServerSigned => "RekaSerdoba/1 full rekey server"
    case KeyContext => "RekaSerdoba/1 full rekey"
  }

  function FullRekeyContext(
    p: Primitives, stage: Stage, id: Bytes, body: Bytes, serverPart: Bytes, transcript: Digest): Digest
    requires |body| == 120
  {
    p.sha256(Ascii(StageName(stage)) + id + body[0..8] + body[8..24] + body[24..56] + serverPart + transcript)
  }

  const ALL_ZERO: Bytes := seq(32, _ => 0)

  /** `ephemeral` is the server's random secret. Note that the transcript and a record number are spent
      even when the shared secret turns out to be all zero. */
  function AcceptFullRekeyInit(p: Primitives, s: Session, record: Sealed, body: Bytes, clientKey: Bytes,
                               serverKey: Bytes, ephemeral: Bytes, now: nat): (Session, Result<Sealed, Error>)
  {
    if |body| != 120 || s.pending.Some? then (s, Err(ConcurrentUpdate))
    else
      var currentEpoch := FromBigEndian(body[0..4]);
      var targetEpoch := FromBigEndian(body[4..8]);
      if currentEpoch != s.current.epoch then (s, Err(InvalidUpdateEpoch))
      else if currentEpoch + 1 >= U32_LIMIT then (s, Err(EpochOverflow))
      else if targetEpoch != currentEpoch + 1 then (s, Err(InvalidUpdateEpoch))
      else
        var clientInput := FullRekeyContext(p, ClientSigned, s.id, body, [], s.transcript);
        if !p.verify(clientKey, clientInput, body[56..120]) then (s, Err(InvalidClientSignature))
        else
          AnswerFullRekeyInit(p, s.(transcript := TranscriptNext(p, s.transcript, record)), body, serverKey,
                              ephemeral, now)
  }

  function ServerSignature(p: Primitives, s: Session, body: Bytes, serverKey: Bytes, ephemeral: Bytes): Bytes
    requires |body| == 120
  {
    p.sign(serverKey, FullRekeyContext(p, ServerSigned, s.id, body, p.publicKey(ephemeral), s.transcript))
  }

  function SealFullReply(p: Primitives, s: Session, body: Bytes, serverKey: Bytes, ephemeral: Bytes)
    : (Session, Result<Sealed, Error>)
    requires |body| == 120
  {
    SealTranscribed(p, s, 0x0A, body[0..24] + p.publicKey(ephemeral)
                    + ServerSignature(p, s, body, serverKey, ephemeral))
  }

  /** The answer to a signed INIT that is part of the transcript already. */
  function AnswerFullRekeyInit(p: Primitives, s: Session, body: Bytes, serverKey: Bytes, ephemeral: Bytes, now: nat)
    : (Session, Result<Sealed, Error>)
    requires |body| == 120
  {
    var serverPublic: Bytes := p.publicKey(ephemeral);
    var signature := ServerSignature(p, s, body, serverKey, ephemeral);
    var (sealed, reply) := SealFullReply(p, s, body, serverKey, ephemeral);
    if reply.Err? then (sealed, reply)
    else
      var shared := p.diffieHellman(ephemeral, body[24..56]);
      if shared == ALL_ZERO then (sealed, Err(AllZeroSecret))
      else
        var context := FullRekeyContext(p, KeyContext, s.id, body,
          serverPublic + body[56..120] + signature, sealed.transcript);
        var nextSecret := p.hmac(s.current.secret, shared + context);
        var confirmKey := p.expand(nextSecret, "full rekey confirm", context);
        (sealed.(
           pending := Some(Pending(NewEpoch(p, s.id, s.current.epoch + 1, nextSecret), Full(context, confirmKey))),
           updateRequested := true,
           updateDeadline := Some(now + UPDATE_TIMEOUT)),
         reply)
  }

  function AcceptFullRekeyConfirm(p: Primitives, s: Session, record: Sealed, body: Bytes, now: nat)
    : (Session, Result<Sealed, Error>)
  {
    if |body| != 36 then (s, Err(InvalidCommit))
    else if s.pending.None? then (s, Err(NotPending))
    else if FromBigEndian(body[0..4]) != s.pending.value.state.epoch then (s, Err(CommitEpochMismatch))
    else if s.pending.value.proof.Routine? then (s, Err(OtherRekeyPending))
    else
      var proof := s.pending.value.proof;
      if body[4..36] != LabelledTag(p, proof.confirmKey, ClientConfirm, proof.context)
      then (s, Err(InvalidCommitTag))
      else Rotate(p, s, record, now)
  }

  // ---- Migration ----

  function PathChallenge(p: Primitives, s: Session, migrationSecret: Bytes, carrierId: Bytes, challenge: Bytes)
    : (Session, Result<(Sealed, Digest), Error>)
  {
    if s.pending.Some? then (s, Err(MigrationDuringRekey))
    else
      var (sealed, outcome) := SealTranscribed(p, s, 0x0C, carrierId + challenge);
      if outcome.Err? then (sealed, Err(outcome.error))
      else
        (sealed,
         Ok((outcome.value,
             p.hmac(migrationSecret,
                    Ascii("RekaSerdoba/1 path response") + s.id + carrierId + challenge + sealed.transcript))))
  }

  function AcceptPathResponse(p: Primitives, s: Session, record: Sealed, body: Bytes, carrierId: Bytes,
                              expected: Digest)
    : (Session, Result<(), Error>)
  {
    if |body| != 48 || body[..16] != carrierId || body[16..] != expected
    then (s, Err(InvalidPathResponse))
    else (s.(transcript := TranscriptNext(p, s.transcript, record)), Ok(()))
  }

  function NextUpdateCheck(s: Session, now: nat): nat {
    if s.updateDeadline.Some? then s.updateDeadline.value
    else if s.pending.Some? || s.updateRequested then now + UPDATE_TIMEOUT
    else s.epochStarted + UPDATE_INTERVAL
  }
}
