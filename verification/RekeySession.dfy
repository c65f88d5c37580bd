/** The server's session object. Every method updates the fields in place, in the order the server does,
    and is proved to leave exactly the session, and give exactly the outcome, of its specification. The replay
    windows are the bitmap objects of module ReplayWindow; they move with their epoch when it is rotated. */
module RekeySession {
  import opened Prelude
  import opened Record
  import opened ReplayWindow
  import opened Rekey

  /** Opens the records of one kind in one epoch. */
  class RecordReceiver {
    const kind: RecordKind
    const sessionId: Bytes
    const epoch: nat
    const key: Digest
    const replay: ServerWindow

    ghost function Repr(): set<object> {
      {replay, replay.bits}
    }

    ghost predicate Valid()
      reads Repr()
    {
      replay.Valid()
    }

    ghost function Model(): Receiver
      reads replay
    {
      Receiver(kind, sessionId, epoch, key, replay.Model())
    }

    constructor (kind: RecordKind, sessionId: Bytes, epoch: nat, key: Digest)
      ensures Valid() && fresh(Repr())
      ensures Model() == Receiver(kind, sessionId, epoch, key, Empty(DEFAULT_REPLAY_WINDOW))
    {
      this.kind := kind;
      this.sessionId := sessionId;
      this.epoch := epoch;
      this.key := key;
      replay := new ServerWindow(DEFAULT_REPLAY_WINDOW);
    }

    /** The window is asked before the record is opened, and moved only for a record that was. */
    method Open(record: Sealed) returns (r: Result<Bytes, Error>)
      requires Valid() && record.header.Valid()
      modifies Repr()
      ensures Valid()
      ensures (Model(), r) == OpenAt(old(Model()), record)
    {
      var header := record.header;
      if header.kind != kind || header.sessionId != sessionId || header.epoch != epoch
        || header.keyPhase != (epoch % 2 != 0) {
        return Err(ContextMismatch);
      }
      if header.ciphertextLen != |record.plaintext| + TAG_LEN {
        return Err(LengthMismatch);
      }
      var plausible := replay.Plausible(header.number);
      if !plausible {
        return Err(ReplayPrecheck);
      }
      if record.key != key {
        return Err(AuthenticationFailed);
      }
      var accepted := replay.CommitAuthenticated(header.number);
      if !accepted {
        return Err(Replayed);
      }
      return Ok(record.plaintext);
    }
  }

  class EpochState {
    const epoch: nat
    const secret: Digest
    const c2sData: RecordReceiver
    const c2sControl: RecordReceiver
    var s2cData: Sender
    var s2cControl: Sender

    ghost const Windows: set<object>

    ghost function Repr(): set<object> {
      {this} + Windows
    }

    ghost predicate Valid()
      reads Repr()
    {
      && Windows == c2sData.Repr() + c2sControl.Repr()
      && c2sData.Valid() && c2sControl.Valid() && c2sData.Repr() !! c2sControl.Repr()
    }

    ghost function Model(): Epoch
      requires Valid()
      reads Repr()
    {
      Epoch(epoch, secret, c2sData.Model(), s2cData, c2sControl.Model(), s2cControl)
    }

    /** What the model of an epoch keeps of the object. */
    lemma Facts()
      requires Valid()
      ensures Model().epoch == epoch && Model().secret == secret
    {
    }

    constructor (p: Primitives, sessionId: Bytes, epoch: nat, secret: Digest)
      ensures Valid() && fresh(Repr())
      ensures Model() == NewEpoch(p, sessionId, epoch, secret)
    {
      hide TrafficKey;
      this.epoch := epoch;
      this.secret := secret;
      var data := new RecordReceiver(Data, sessionId, epoch, TrafficKey(p, secret, sessionId, epoch, Data, C2S));
      s2cData := Sender(Data, sessionId, epoch, TrafficKey(p, secret, sessionId, epoch, Data, S2C), 0);
      c2sData := data;
      var control := new RecordReceiver(Control, sessionId, epoch,
                                        TrafficKey(p, secret, sessionId, epoch, Control, C2S));
      s2cControl := Sender(Control, sessionId, epoch, TrafficKey(p, secret, sessionId, epoch, Control, S2C), 0);
      c2sControl := control;
      Windows := data.Repr() + control.Repr();
    }

    method OpenFrom(record: Sealed) returns (r: Result<Bytes, Error>)
      requires Valid() && record.header.Valid()
      modifies Windows
      ensures Valid()
      ensures (Model(), r) == Rekey.OpenFrom(old(Model()), record)
    {
      hide OpenAt;
      if record.header.kind == Data {
        r := c2sData.Open(record);
      } else {
        r := c2sControl.Open(record);
      }
    }

    method SealData(plaintext: Bytes, padded: bool) returns (r: Result<Sealed, Error>)
      requires Valid()
      modifies `s2cData
      ensures Valid()
      ensures (Model().s2cData, r) == Seal(old(Model()).s2cData, plaintext, padded)
      ensures Model() == old(Model()).(s2cData := Model().s2cData)
    {
      hide Seal;
      s2cData, r := SealWith(s2cData, plaintext, padded);
    }

    method SealControl(plaintext: Bytes, padded: bool) returns (r: Result<Sealed, Error>)
      requires Valid()
      modifies `s2cControl
      ensures Valid()
      ensures (Model().s2cControl, r) == Seal(old(Model()).s2cControl, plaintext, padded)
      ensures Model() == old(Model()).(s2cControl := Model().s2cControl)
    {
      hide Seal;
      s2cControl, r := SealWith(s2cControl, plaintext, padded);
    }

    static method SealWith(s: Sender, plaintext: Bytes, padded: bool) returns (sender: Sender, r: Result<Sealed, Error>)
      ensures (sender, r) == Seal(s, plaintext, padded)
    {
      if |plaintext| + TAG_LEN > MAX_CIPHERTEXT_LEN {
        return s, Err(PlaintextTooLarge);
      }
      var number := s.next;
      if number >= MAX_RECORDS_PER_EPOCH {
        return s.(next := MAX_RECORDS_PER_EPOCH), Err(HardLimitReached);
      }
      return s.(next := number + 1), Ok(Sealed(HeaderFor(s, number, plaintext, padded), s.key, plaintext));
    }
  }

  datatype PendingEpoch = PendingEpoch(state: EpochState, proof: Proof)
  datatype PreviousEpoch = PreviousEpoch(state: EpochState, expiresAt: nat, remaining: nat)

  class RekeySession {
    const p: Primitives
    const id: Bytes
    var transcript: Digest
    var current: EpochState
    var pending: Option<PendingEpoch>
    var previous: Option<PreviousEpoch>
    var epochStarted: nat
    var dataRecords: nat
    var plaintextBytes: nat
    var updateRequested: bool
    var updateDeadline: Option<nat>
    ghost var Repr: set<object>

    ghost function PendingRepr(): set<object>
      reads this
    {
      if pending.Some? then pending.value.state.Repr() else {}
    }

    ghost function PreviousRepr(): set<object>
      reads this
    {
      if previous.Some? then previous.value.state.Repr() else {}
    }

    /** No two epochs share a window. */
    ghost predicate Valid()
      reads this, Repr
    {
      && this in Repr && current.Repr() <= Repr && PendingRepr() <= Repr && PreviousRepr() <= Repr
      && current.Valid()
      && (pending.Some? ==> pending.value.state.Valid())
      && (previous.Some? ==> previous.value.state.Valid())
      && {this} !! current.Repr() && {this} !! PendingRepr() && {this} !! PreviousRepr()
      && current.Repr() !! PendingRepr() && current.Repr() !! PreviousRepr() && PendingRepr() !! PreviousRepr()
    }

    ghost function Model(): Session
      requires Valid()
      reads this, Repr
    {
      Session(id, transcript, current.Model(),
              if pending.Some? then Some(Pending(pending.value.state.Model(), pending.value.proof)) else None,
              if previous.Some? then Some(Previous(previous.value.state.Model(), previous.value.expiresAt,
                                                   previous.value.remaining))
              else None,
              epochStarted, dataRecords, plaintextBytes, updateRequested, updateDeadline)
    }

    constructor (p: Primitives, id: Bytes, secret: Digest, handshakeTranscript: Digest, now: nat)
      ensures Valid() && fresh(Repr)
      ensures Model() == New(p, id, secret, handshakeTranscript, now) && this.p == p
    {
      hide NewEpoch, EpochState.Model, EpochState.Valid;
      this.p := p;
      this.id := id;
      transcript := p.sha256(Ascii("RekaSerdoba/1 control transcript") + handshakeTranscript + id);
      current := new EpochState(p, id, 0, secret);
      pending := None;
      previous := None;
      epochStarted := now;
      dataRecords := 0;
      plaintextBytes := 0;
      updateRequested := false;
      updateDeadline := None;
      new;
      Repr := {this} + current.Repr();
    }

    method CountData(size: nat) returns (r: Result<(), Error>)
      requires Valid()
      modifies `dataRecords, `plaintextBytes
      ensures Valid()
      ensures (Model(), r) == Rekey.CountData(old(Model()), size)
    {
      hide EpochState.Model, EpochState.Valid;
      if dataRecords + 1 >= U64_LIMIT {
        return Err(DataCounterOverflow);
      }
      dataRecords := dataRecords + 1;
      if plaintextBytes + size >= U64_LIMIT {
        return Err(ByteCounterOverflow);
      }
      plaintextBytes := plaintextBytes + size;
      return Ok(());
    }

    method ExpirePrevious(now: nat)
      requires Valid()
      modifies `previous
      ensures Valid()
      ensures Model() == Rekey.ExpirePrevious(old(Model()), now)
    {
      hide EpochState.Model, EpochState.Valid;
      if previous.Some? && (previous.value.remaining == 0 || now >= previous.value.expiresAt) {
        previous := None;
      }
    }

    method SealData(plaintext: Bytes, padded: bool) returns (r: Result<Sealed, Error>)
      requires Valid()
      modifies `dataRecords, `plaintextBytes, current`s2cData
      ensures Valid()
      ensures (Model(), r) == Rekey.SealData(old(Model()), plaintext, padded)
    {
      hide Seal, EpochState.Model, EpochState.Valid;
      current.Facts();
      var count := CountData(|plaintext|);
      if count.Err? {
        return Err(count.error);
      }
      r := current.SealData(plaintext, padded);
    }

    method SealControl(plaintext: Bytes, padded: bool) returns (r: Result<Sealed, Error>)
      requires Valid()
      modifies current`s2cControl
      ensures Valid()
      ensures (Model(), r) == Rekey.SealControl(old(Model()), plaintext, padded)
    {
      hide Seal, EpochState.Model, EpochState.Valid;
      current.Facts();
      r := current.SealControl(plaintext, padded);
    }

    /** Seals a control frame and moves the transcript past the record. */
    method SealTranscribed(frameType: byte, body: Bytes) returns (r: Result<Sealed, Error>)
      requires Valid()
      modifies `transcript, current`s2cControl
      ensures Valid()
      ensures (Model(), r) == Rekey.SealTranscribed(p, old(Model()), frameType, body)
    {
      hide Rekey.SealControl, FrameBytes, TranscriptNext, EpochState.Model, EpochState.Valid;
      current.Facts();
      r := SealControl(FrameBytes(Frame(frameType, 0, body)), false);
      if r.Ok? {
        transcript := TranscriptNext(p, transcript, r.value);
      }
    }

    method OpenCurrent(record: Sealed) returns (r: Result<Bytes, Error>)
      requires Valid() && record.header.Valid()
      modifies current.Windows
      ensures Valid()
      ensures var (state, outcome) := Rekey.OpenFrom(old(Model()).current, record);
              Model() == old(Model()).(current := state) && r == outcome
    {
      hide Rekey.OpenFrom, EpochState.Model, EpochState.Valid;
      r := current.OpenFrom(record);
    }

    method OpenPending(record: Sealed) returns (r: Result<Bytes, Error>)
      requires Valid() && record.header.Valid() && pending.Some?
      modifies pending.value.state.Windows
      ensures Valid()
      ensures var before := old(Model()).pending.value;
              var (state, outcome) := Rekey.OpenFrom(before.state, record);
              Model() == old(Model()).(pending := Some(before.(state := state))) && r == outcome
    {
      hide Rekey.OpenFrom, EpochState.Model, EpochState.Valid;
      r := pending.value.state.OpenFrom(record);
    }

    method OpenPrevious(record: Sealed) returns (r: Result<Bytes, Error>)
      requires Valid() && record.header.Valid() && previous.Some?
      modifies previous.value.state.Windows
      ensures Valid()
      ensures var before := old(Model()).previous.value;
              var (state, outcome) := Rekey.OpenFrom(before.state, record);
              Model() == old(Model()).(previous := Some(before.(state := state))) && r == outcome
    {
      hide Rekey.OpenFrom, EpochState.Model, EpochState.Valid;
      r := previous.value.state.OpenFrom(record);
    }

    /** What the models of the epochs keep of the objects. */
    lemma Epochs()
      requires Valid()
      ensures Model().current.epoch == current.epoch && Model().current.secret == current.secret
      ensures pending.Some? ==> Model().pending.value.state.epoch == pending.value.state.epoch
      ensures previous.Some? ==> Model().previous.value.state.epoch == previous.value.state.epoch
    {
    }

    method Open(record: Sealed, now: nat) returns (r: Result<OpenedRecord, Error>)
      requires Valid()
      modifies Repr
      ensures Valid() && Repr == old(Repr)
      ensures (Model(), r) == Rekey.Open(old(Model()), record, now)
    {
      hide Rekey.OpenFrom, EpochState.Model, EpochState.Valid;
      ExpirePrevious(now);
      Epochs();
      var header := record.header;
      if !header.Valid() {
        return Err(InvalidHeader);
      }
      if header.epoch == current.epoch {
        var outcome := OpenCurrent(record);
        if outcome.Err? {
          return Err(outcome.error);
        }
        if header.kind == Data {
          var count := CountData(|outcome.value|);
          if count.Err? {
            return Err(count.error);
          }
        }
        return Ok(OpenedRecord(header, outcome.value, Current));
      }
      if pending.Some? && header.epoch == pending.value.state.epoch {
        if header.kind != Control {
          return Err(PendingControlOnly);
        }
        var outcome := OpenPending(record);
        if outcome.Err? {
          return Err(outcome.error);
        }
        return Ok(OpenedRecord(header, outcome.value, Pending_));
      }
      if previous.Some? && header.epoch == previous.value.state.epoch {
        if previous.value.remaining == 0 || now >= previous.value.expiresAt {
          return Err(GraceExpired);
        }
        var outcome := OpenPrevious(record);
        if outcome.Err? {
          return Err(outcome.error);
        }
        previous := Some(previous.value.(remaining := previous.value.remaining - 1));
        return Ok(OpenedRecord(header, outcome.value, Previous_));
      }
      return Err(UnknownEpoch);
    }

    method RequestUpdateIfDue(now: nat) returns (r: Result<Option<Sealed>, Error>)
      requires Valid()
      modifies `transcript, `updateRequested, `updateDeadline, current`s2cControl
      ensures Valid()
      ensures (Model(), r) == Rekey.RequestUpdateIfDue(p, old(Model()), now)
    {
      hide Rekey.SealTranscribed, EpochState.Model, EpochState.Valid;
      Epochs();
      if updateDeadline.Some? && now >= updateDeadline.value {
        return Err(UpdateTimedOut);
      }
      if pending.Some? || updateRequested {
        return Ok(None);
      }
      if now < epochStarted + UPDATE_INTERVAL && dataRecords < UPDATE_RECORD_LIMIT
        && plaintextBytes < UPDATE_BYTE_LIMIT {
        return Ok(None);
      }
      var sealed := SealTranscribed(0x04, BigEndian(current.epoch, 4));
      if sealed.Err? {
        return Err(sealed.error);
      }
      updateRequested := true;
      updateDeadline := Some(now + UPDATE_TIMEOUT);
      return Ok(Some(sealed.value));
    }

    /** The new epoch is derived and becomes the pending one. */
    method Begin(epoch: nat, secret: Digest, proof: Proof, now: nat)
      requires Valid() && pending.None?
      modifies `pending, `updateRequested, `updateDeadline, `Repr
      ensures Valid() && fresh(Repr - old(Repr))
      ensures Model() == old(Model()).(pending := Some(Pending(NewEpoch(p, id, epoch, secret), proof)),
                                       updateRequested := true,
                                       updateDeadline := Some(now + UPDATE_TIMEOUT))
    {
      hide NewEpoch, EpochState.Model, EpochState.Valid;
      var state := new EpochState(p, id, epoch, secret);
      pending := Some(PendingEpoch(state, proof));
      Repr := Repr + state.Repr();
      updateRequested := true;
      updateDeadline := Some(now + UPDATE_TIMEOUT);
    }

    /** The epochs move up by one; each keeps its windows. */
    method Shift(now: nat)
      requires Valid() && pending.Some?
      modifies `pending, `current, `previous
      ensures Valid() && current == old(pending).value.state
      ensures var before := old(Model());
              Model() == before.(current := before.pending.value.state,
                                 pending := None,
                                 previous := Some(Previous(before.current, now + OLD_EPOCH_GRACE, OLD_EPOCH_RECORDS)))
    {
      hide EpochState.Model, EpochState.Valid;
      var taken := pending.value;
      pending := None;
      previous := Some(PreviousEpoch(current, now + OLD_EPOCH_GRACE, OLD_EPOCH_RECORDS));
      current := taken.state;
    }

    method AcceptUpdateInit(record: Sealed, body: Bytes, now: nat) returns (r: Result<Sealed, Error>)
      requires Valid()
      modifies this, current`s2cControl
      ensures Valid() && fresh(Repr - old(Repr))
      ensures (Model(), r) == Rekey.AcceptUpdateInit(p, old(Model()), record, body, now)
    {
      hide TranscriptNext, UpdateInput, LabelledTag, ConfirmationKey, NewEpoch, Rekey.SealTranscribed, EpochState.Model,
           EpochState.Valid;
      Epochs();
      if |body| != 72 || pending.Some? {
        return Err(ConcurrentUpdate);
      }
      var currentEpoch := FromBigEndian(body[0..4]);
      var nextEpoch := FromBigEndian(body[4..8]);
      var nonce := body[8..40];
      if currentEpoch != current.epoch {
        return Err(InvalidUpdateEpoch);
      }
      if currentEpoch + 1 >= U32_LIMIT {
        return Err(EpochOverflow);
      }
      if nextEpoch != currentEpoch + 1 {
        return Err(InvalidUpdateEpoch);
      }
      var input := UpdateInput(id, currentEpoch, nextEpoch, nonce, transcript);
      if body[40..72] != p.hmac(current.secret, input) {
        return Err(InvalidUpdateTag);
      }
      var context := p.sha256(input);
      var nextSecret := p.hmac(current.secret, context);
      var confirmKey := ConfirmationKey(p, nextSecret, id, nextEpoch);
      transcript := TranscriptNext(p, transcript, record);
      r := SealTranscribed(0x06, BigEndian(nextEpoch, 4) + LabelledTag(p, confirmKey, ServerAck, context));
      if r.Err? {
        return;
      }
      Begin(nextEpoch, nextSecret, Routine(context, confirmKey), now);
      ExpirePrevious(now);
    }

    /** The common end of both rekeys: `pending` becomes `current`, and DONE is sealed under it. */
    method Rotate(record: Sealed, now: nat) returns (r: Result<Sealed, Error>)
      requires Valid() && pending.Some?
      modifies this, pending.value.state`s2cControl
      ensures Valid() && Repr == old(Repr)
      ensures (Model(), r) == Rekey.Rotate(p, old(Model()), record, now)
    {
      hide TranscriptNext, LabelledTag, Rekey.SealTranscribed, EpochState.Model, EpochState.Valid;
      Epochs();
      var taken := pending.value;
      var done := LabelledTag(p, taken.proof.confirmKey, ServerDone, taken.proof.context);
      transcript := TranscriptNext(p, transcript, record);
      Shift(now);
      r := SealTranscribed(0x08, BigEndian(taken.state.epoch, 4) + done);
      if r.Err? {
        return;
      }
      Restart(now);
    }

    /** The limits of an epoch start anew. */
    method Restart(now: nat)
      requires Valid()
      modifies `epochStarted, `dataRecords, `plaintextBytes, `updateRequested, `updateDeadline
      ensures Valid()
      ensures Model() == old(Model()).(epochStarted := now, dataRecords := 0, plaintextBytes := 0,
                                       updateRequested := false, updateDeadline := None)
    {
      hide EpochState.Model, EpochState.Valid;
      epochStarted := now;
      dataRecords := 0;
      plaintextBytes := 0;
      updateRequested := false;
      updateDeadline := None;
    }

    method AcceptUpdateCommit(record: Sealed, body: Bytes, now: nat) returns (r: Result<Sealed, Error>)
      requires Valid()
      modifies Repr
      ensures Valid() && fresh(Repr - old(Repr))
      ensures (Model(), r) == Rekey.AcceptUpdateCommit(p, old(Model()), record, body, now)
    {
      hide LabelledTag, Rekey.Rotate, EpochState.Model, EpochState.Valid;
      Epochs();
      if |body| != 36 {
        return Err(InvalidCommit);
      }
      if pending.None? {
        return Err(NotPending);
      }
      if FromBigEndian(body[0..4]) != pending.value.state.epoch {
        return Err(CommitEpochMismatch);
      }
      if !pending.value.proof.Routine? {
        return Err(OtherRekeyPending);
      }
      var expected := LabelledTag(p, pending.value.proof.confirmKey, ClientCommit, pending.value.proof.context);
      if body[4..36] != expected {
        return Err(InvalidCommitTag);
      }
      r := Rotate(record, now);
    }

    method AcceptFullRekeyInit(record: Sealed, body: Bytes, clientKey: Bytes, serverKey: Bytes, ephemeral: Bytes,
                               now: nat)
      returns (r: Result<Sealed, Error>)
      requires Valid()
      modifies Repr
      ensures Valid() && fresh(Repr - old(Repr))
      ensures (Model(), r) == Rekey.AcceptFullRekeyInit(p, old(Model()), record, body, clientKey, serverKey,
                                                        ephemeral, now)
    {
      hide TranscriptNext, FullRekeyContext, Rekey.AnswerFullRekeyInit, EpochState.Model, EpochState.Valid;
      Epochs();
      if |body| != 120 || pending.Some? {
        return Err(ConcurrentUpdate);
      }
      var currentEpoch := FromBigEndian(body[0..4]);
      var targetEpoch := FromBigEndian(body[4..8]);
      if currentEpoch != current.epoch {
        return Err(InvalidUpdateEpoch);
      }
      if currentEpoch + 1 >= U32_LIMIT {
        return Err(EpochOverflow);
      }
      if targetEpoch != currentEpoch + 1 {
        return Err(InvalidUpdateEpoch);
      }
      var clientInput := FullRekeyContext(p, ClientSigned, id, body, [], transcript);
      if !p.verify(clientKey, clientInput, body[56..120]) {
        return Err(InvalidClientSignature);
      }
      transcript := TranscriptNext(p, transcript, record);
      r := AnswerFullRekeyInit(targetEpoch, body, serverKey, ephemeral, now);
    }

    method AnswerFullRekeyInit(targetEpoch: nat, body: Bytes, serverKey: Bytes, ephemeral: Bytes, now: nat)
      returns (r: Result<Sealed, Error>)
      requires Valid() && |body| == 120 && pending.None? && targetEpoch == current.epoch + 1
      modifies this, current`s2cControl
      ensures Valid() && fresh(Repr - old(Repr))
      ensures (Model(), r) == Rekey.AnswerFullRekeyInit(p, old(Model()), body, serverKey, ephemeral, now)
    {
      hide FullRekeyContext, NewEpoch, FrameBytes, Rekey.SealTranscribed, EpochState.Model, EpochState.Valid;
      Epochs();
      var serverPublic: Bytes := p.publicKey(ephemeral);
      var serverInput := FullRekeyContext(p, ServerSigned, id, body, serverPublic, transcript);
      var signature := p.sign(serverKey, serverInput);
      r := SealTranscribed(0x0A, body[0..24] + serverPublic + signature);
      if r.Err? {
        return;
      }
      var shared: Bytes := p.diffieHellman(ephemeral, body[24..56]);
      if shared == ALL_ZERO {
        return Err(AllZeroSecret);
      }
      var context := FullRekeyContext(p, KeyContext, id, body, serverPublic + body[56..120] + signature, transcript);
      var nextSecret := p.hmac(current.secret, shared + context);
      var confirmKey := p.expand(nextSecret, "full rekey confirm", context);
      Begin(targetEpoch, nextSecret, Full(context, confirmKey), now);
    }

    method AcceptFullRekeyConfirm(record: Sealed, body: Bytes, now: nat) returns (r: Result<Sealed, Error>)
      requires Valid()
      modifies Repr
      ensures Valid() && fresh(Repr - old(Repr))
      ensures (Model(), r) == Rekey.AcceptFullRekeyConfirm(p, old(Model()), record, body, now)
    {
      hide LabelledTag, Rekey.Rotate, EpochState.Model, EpochState.Valid;
      Epochs();
      if |body| != 36 {
        return Err(InvalidCommit);
      }
      if pending.None? {
        return Err(NotPending);
      }
      if FromBigEndian(body[0..4]) != pending.value.state.epoch {
        return Err(CommitEpochMismatch);
      }
      if !pending.value.proof.Full? {
        return Err(OtherRekeyPending);
      }
      var expected := LabelledTag(p, pending.value.proof.confirmKey, ClientConfirm, pending.value.proof.context);
      if body[4..36] != expected {
        return Err(InvalidCommitTag);
      }
      r := Rotate(record, now);
    }

    method PathChallenge(migrationSecret: Bytes, carrierId: Bytes, challenge: Bytes)
      returns (r: Result<(Sealed, Digest), Error>)
      requires Valid()
      modifies `transcript, current`s2cControl
      ensures Valid()
      ensures (Model(), r) == Rekey.PathChallenge(p, old(Model()), migrationSecret, carrierId, challenge)
    {
      hide Rekey.SealTranscribed, EpochState.Model, EpochState.Valid;
      if pending.Some? {
        return Err(MigrationDuringRekey);
      }
      var sealed := SealTranscribed(0x0C, carrierId + challenge);
      if sealed.Err? {
        return Err(sealed.error);
      }
      var proof := Ascii("RekaSerdoba/1 path response") + id + carrierId + challenge + transcript;
      return Ok((sealed.value, p.hmac(migrationSecret, proof)));
    }

    method AcceptPathResponse(record: Sealed, body: Bytes, carrierId: Bytes, expected: Digest)
      returns (r: Result<(), Error>)
      requires Valid()
      modifies `transcript
      ensures Valid()
      ensures (Model(), r) == Rekey.AcceptPathResponse(p, old(Model()), record, body, carrierId, expected)
    {
      hide TranscriptNext, EpochState.Model, EpochState.Valid;
      if |body| != 48 || body[..16] != carrierId || body[16..] != expected {
        return Err(InvalidPathResponse);
      }
      transcript := TranscriptNext(p, transcript, record);
      return Ok(());
    }
  }
}
