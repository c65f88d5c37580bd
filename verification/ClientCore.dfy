/** The Windows client's half of a session: what it seals, what it accepts, and its part of the key
    update. The functions specify the methods of `RekaSession`. */
module ClientCore {
  import opened Prelude
  import opened Record
  import opened ReplayWindow
  import opened Rekey

  datatype ClientError =
    | InvalidRecord | EpochMismatch | MissingKeys | ReplayRejected | BadHeader | BadTag | BadFrames
    | NotSingleFrame | InvalidRequest | ConcurrentRequest | UnexpectedAck | AckEpoch | InvalidAck
    | UnexpectedDone | InvalidDone | DoesNotPack

  datatype Keys = Keys(c2sData: Digest, s2cData: Digest, c2sControl: Digest, s2cControl: Digest)

  /** What the client derives once the server acknowledged the update. */
  datatype Next = Next(keys: Keys, secret: Digest, confirmKey: Digest, dataWindow: Window, controlWindow: Window)

  datatype PendingRekey = PendingRekey(epoch: nat, context: Digest, started: nat, next: Option<Next>)

  datatype Client = Client(
    id: Bytes,
    epoch: nat,
    keys: Keys,
    secret: Digest,
    transcript: Digest,
    dataNumber: nat,
    controlNumber: nat,
    dataWindow: Window,
    controlWindow: Window,
    pending: Option<PendingRekey>
  )

  /** What one received record gives the caller: the data frames, and a record to send in answer. */
  datatype Received = Received(data: seq<Frame>, reply: Option<Sealed>)

  function DeriveKeys(p: Primitives, secret: Digest, id: Bytes, epoch: nat): Keys {
    Keys(TrafficKey(p, secret, id, epoch, Data, C2S), TrafficKey(p, secret, id, epoch, Data, S2C),
         TrafficKey(p, secret, id, epoch, Control, C2S), TrafficKey(p, secret, id, epoch, Control, S2C))
  }

  function NewClient(p: Primitives, id: Bytes, secret: Digest, handshakeTranscript: Digest): Client {
    Client(id, 0, DeriveKeys(p, secret, id, 0), secret,
           p.sha256(Ascii("RekaSerdoba/1 control transcript") + handshakeTranscript + id),
           0, 0, Empty(DEFAULT_REPLAY_WINDOW), Empty(DEFAULT_REPLAY_WINDOW), None)
  }

  function SealAs(id: Bytes, kind: RecordKind, epoch: nat, key: Digest, number: nat, plaintext: Bytes): Sealed {
    Sealed(Header(kind, epoch % 2 != 0, false, id, epoch, number, |plaintext| + TAG_LEN), key, plaintext)
  }

  /** The header fields fit the fixed-width places of the record header. */
  predicate Packs(epoch: nat, number: nat, plaintext: Bytes) {
    epoch < U32_LIMIT && number < U64_LIMIT && |plaintext| + TAG_LEN < U16_LIMIT
  }

  function SendData(c: Client, plaintext: Bytes): (Client, Result<Sealed, ClientError>) {
    if !Packs(c.epoch, c.dataNumber, plaintext) then (c, Err(DoesNotPack))
    else
      (c.(dataNumber := c.dataNumber + 1),
       Ok(SealAs(c.id, Data, c.epoch, c.keys.c2sData, c.dataNumber, plaintext)))
  }

  function SealCurrentControl(c: Client, plaintext: Bytes): (Client, Result<Sealed, ClientError>) {
    if !Packs(c.epoch, c.controlNumber, plaintext) then (c, Err(DoesNotPack))
    else
      (c.(controlNumber := c.controlNumber + 1),
       Ok(SealAs(c.id, Control, c.epoch, c.keys.c2sControl, c.controlNumber, plaintext)))
  }

  function AcceptUpdateRequest(p: Primitives, c: Client, record: Sealed, body: Bytes, nonce: Digest, now: nat)
    : (Client, Result<Sealed, ClientError>)
  {
    if |body| != 4 || FromBigEndian(body) != c.epoch then (c, Err(InvalidRequest))
    else if c.pending.Some? then (c, Err(ConcurrentRequest))
    else
      var noted := c.(transcript := TranscriptNext(p, c.transcript, record));
      var nextEpoch := c.epoch + 1;
      if nextEpoch >= U32_LIMIT then (noted, Err(DoesNotPack))
      else
        var input := UpdateInput(c.id, c.epoch, nextEpoch, nonce, noted.transcript);
        var tag := p.hmac(c.secret, input);
        var (sealed, init) := SealCurrentControl(noted, InitPlaintext(c.epoch, nonce, tag));
        if init.Err? then (sealed, init)
        else
          (sealed.(transcript := TranscriptNext(p, sealed.transcript, init.value),
                   pending := Some(PendingRekey(nextEpoch, p.sha256(input), now, None))),
           init)
  }

  function InitPlaintext(epoch: nat, nonce: Bytes, tag: Bytes): Bytes {
    FrameBytes(Frame(0x05, 0, BigEndian(epoch, 4) + BigEndian(epoch + 1, 4) + nonce + tag))
  }

  /** COMMIT is always number 0 of the next epoch's control key. */
  function CommitRecord(p: Primitives, id: Bytes, epoch: nat, keys: Keys, confirmKey: Digest, context: Digest): Sealed {
    SealAs(id, Control, epoch, keys.c2sControl, 0,
           FrameBytes(Frame(0x07, 0, BigEndian(epoch, 4) + LabelledTag(p, confirmKey, ClientCommit, context))))
  }

  function DeriveNext(p: Primitives, c: Client, pending: PendingRekey): Next {
    var secret := p.hmac(c.secret, pending.context);
    Next(DeriveKeys(p, secret, c.id, pending.epoch), secret, ConfirmationKey(p, secret, c.id, pending.epoch),
         Empty(DEFAULT_REPLAY_WINDOW), Empty(DEFAULT_REPLAY_WINDOW))
  }

  function AcceptUpdateAck(p: Primitives, c: Client, record: Sealed, body: Bytes)
    : (Client, Result<Sealed, ClientError>)
  {
    if c.pending.None? || |body| != 36 then (c, Err(UnexpectedAck))
    else
      var pending := c.pending.value;
      if FromBigEndian(body[..4]) != pending.epoch then (c, Err(AckEpoch))
      else
        var next := DeriveNext(p, c, pending);
        if body[4..] != LabelledTag(p, next.confirmKey, ServerAck, pending.context) then (c, Err(InvalidAck))
        else
          var commit := CommitRecord(p, c.id, pending.epoch, next.keys, next.confirmKey, pending.context);
          (c.(transcript := TranscriptNext(p, TranscriptNext(p, c.transcript, record), commit),
              pending := Some(pending.(next := Some(next)))),
           Ok(commit))
  }

  function AcceptUpdateDone(p: Primitives, c: Client, record: Sealed, body: Bytes): (Client, Result<(), ClientError>) {
    if c.pending.None? || c.pending.value.next.None? || |body| != 36 then (c, Err(UnexpectedDone))
    else
      var pending := c.pending.value;
      var next := pending.next.value;
      if FromBigEndian(body[..4]) != pending.epoch
        || body[4..] != LabelledTag(p, next.confirmKey, ServerDone, pending.context)
      then (c, Err(InvalidDone))
      else
        (c.(transcript := TranscriptNext(p, c.transcript, record),
            keys := next.keys, secret := next.secret, epoch := pending.epoch,
            dataNumber := 0, controlNumber := 1,
            dataWindow := next.dataWindow, controlWindow := next.controlWindow,
            pending := None),
         Ok(()))
  }

  /** Opens a record at one key and window: the window is tested, then the header and the tag, and only
      then is the number committed. */
  function OpenWith(id: Bytes, epoch: nat, key: Digest, window: Window, record: Sealed)
    : (Window, Result<Bytes, ClientError>)
  {
    var h := record.header;
    if !window.Fresh(h.number) then (window, Err(ReplayRejected))
    else if h != SealAs(id, h.kind, epoch, key, h.number, record.plaintext).header then (window, Err(BadHeader))
    else if record.key != key then (window, Err(BadTag))
    else (window.Add(h.number), Ok(record.plaintext))
  }

  /** Which epoch a record is for, and the client with its window advanced; `Pending_` is the epoch the
      client is about to enter. */
  function OpenRecord(c: Client, record: Sealed): (Client, Result<(Bytes, Position), ClientError>) {
    var h := record.header;
    if h.sessionId != c.id then (c, Err(InvalidRecord))
    else if h.epoch == c.epoch then
      if h.kind == Control then
        var (window, r) := OpenWith(c.id, c.epoch, c.keys.s2cControl, c.controlWindow, record);
        (c.(controlWindow := window), if r.Ok? then Ok((r.value, Current)) else Err(r.error))
      else
        var (window, r) := OpenWith(c.id, c.epoch, c.keys.s2cData, c.dataWindow, record);
        (c.(dataWindow := window), if r.Ok? then Ok((r.value, Current)) else Err(r.error))
    else if c.pending.Some? && h.epoch == c.pending.value.epoch && h.kind == Control then
      if c.pending.value.next.None? then (c, Err(MissingKeys))
      else
        var next := c.pending.value.next.value;
        var (window, r) := OpenWith(c.id, c.pending.value.epoch, next.keys.s2cControl, next.controlWindow, record);
        (c.(pending := Some(c.pending.value.(next := Some(next.(controlWindow := window))))),
         if r.Ok? then Ok((r.value, Pending_)) else Err(r.error))
    else (c, Err(EpochMismatch))
  }

  function Dispatch(p: Primitives, c: Client, record: Sealed, position: Position, f: Frame, nonce: Digest, now: nat)
    : (Client, Result<Option<Sealed>, ClientError>)
  {
    if f.frameType == 0x04 && position == Current then
      var (c1, r) := AcceptUpdateRequest(p, c, record, f.body, nonce, now);
      (c1, if r.Ok? then Ok(Some(r.value)) else Err(r.error))
    else if f.frameType == 0x06 && position == Current then
      var (c1, r) := AcceptUpdateAck(p, c, record, f.body);
      (c1, if r.Ok? then Ok(Some(r.value)) else Err(r.error))
    else if f.frameType == 0x08 && position == Pending_ then
      var (c1, r) := AcceptUpdateDone(p, c, record, f.body);
      (c1, if r.Ok? then Ok(None) else Err(r.error))
    else (c, Ok(None))
  }

  /** `nonce` is the randomness a REQUEST would consume. A control record of several frames holds no
      security-critical frame, and the client acts on no other kind. */
  function Receive(p: Primitives, c: Client, record: Sealed, nonce: Digest, now: nat)
    : (Client, Result<Received, ClientError>)
  {
    var (c1, r) := OpenRecord(c, record);
    if r.Err? then (c1, Err(r.error))
    else
      var (plaintext, position) := r.value;
      var frames := ClientFrames(plaintext);
      if frames.Err? then (c1, Err(BadFrames))
      else if record.header.kind == Data then (c1, Ok(Received(frames.value, None)))
      else if |frames.value| != 1 then
        (c1, if exists f | f in frames.value ::
         SecurityCritical(f) then Err(NotSingleFrame) else Ok(Received([], None)))
      else
        var (c2, outcome) := Dispatch(p, c1, record, position, frames.value[0], nonce, now);
        (c2, if outcome.Ok? then Ok(Received([], outcome.value)) else Err(outcome.error))
  }
}
