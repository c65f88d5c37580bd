/** The client's session object: the same operations as in module ClientCore, on fields updated in place. The
    replay windows are the bitmap objects of module ReplayWindow; DONE moves the pending ones into use. */
module RekaSession {
  import opened Prelude
  import opened Record
  import opened ReplayWindow
  import opened Rekey
  import opened ClientCore

  datatype NextEpoch = NextEpoch(keys: Keys, secret: Digest, confirmKey: Digest, dataWindow: ClientWindow,
                                 controlWindow: ClientWindow)

  datatype Update = Update(epoch: nat, context: Digest, started: nat, next: Option<NextEpoch>)

  class RekaSession {
    const p: Primitives
    const id: Bytes
    var epoch: nat
    var keys: Keys
    var secret: Digest
    var transcript: Digest
    var dataNumber: nat
    var controlNumber: nat
    var dataWindow: ClientWindow
    var controlWindow: ClientWindow
    var pending: Option<Update>
    ghost var Repr: set<object>

    predicate HasNext()
      reads this
    {
      pending.Some? && pending.value.next.Some?
    }

    /** No two windows are one object. */
    ghost predicate Valid()
      reads this, Repr
    {
      && {this, dataWindow, controlWindow} <= Repr
      && dataWindow.Valid() && controlWindow.Valid() && dataWindow != controlWindow
      && (HasNext() ==>
            var next := pending.value.next.value;
            && {next.dataWindow, next.controlWindow} <= Repr
            && next.dataWindow.Valid() && next.controlWindow.Valid() && next.dataWindow != next.controlWindow
            && {next.dataWindow, next.controlWindow} !! {dataWindow, controlWindow})
    }

    ghost function NextModel(next: NextEpoch): Next
      reads next.dataWindow, next.controlWindow
    {
      Next(next.keys, next.secret, next.confirmKey, next.dataWindow.Model(), next.controlWindow.Model())
    }

    ghost function PendingModel(): Option<PendingRekey>
      requires Valid()
      reads this, Repr
    {
      if pending.None? then None
      else
        var update := pending.value;
        Some(PendingRekey(update.epoch, update.context, update.started,
                          if update.next.Some? then Some(NextModel(update.next.value)) else None))
    }

    ghost function Model(): Client
      requires Valid()
      reads this, Repr
    {
      Client(id, epoch, keys, secret, transcript, dataNumber, controlNumber, dataWindow.Model(), controlWindow.Model(),
             PendingModel())
    }

    constructor (p: Primitives, id: Bytes, secret: Digest, handshakeTranscript: Digest)
      ensures Valid() && fresh(Repr)
      ensures Model() == NewClient(p, id, secret, handshakeTranscript) && this.p == p
    {
      this.p := p;
      this.id := id;
      epoch := 0;
      keys := DeriveKeys(p, secret, id, 0);
      this.secret := secret;
      transcript := p.sha256(Ascii("RekaSerdoba/1 control transcript") + handshakeTranscript + id);
      dataNumber := 0;
      controlNumber := 0;
      dataWindow := new ClientWindow(DEFAULT_REPLAY_WINDOW);
      controlWindow := new ClientWindow(DEFAULT_REPLAY_WINDOW);
      pending := None;
      new;
      Repr := {this, dataWindow, controlWindow};
    }

    method SendData(plaintext: Bytes) returns (r: Result<Sealed, ClientError>)
      requires Valid()
      modifies `dataNumber
      ensures Valid()
      ensures (Model(), r) == ClientCore.SendData(old(Model()), plaintext)
    {
      if !Packs(epoch, dataNumber, plaintext) {
        return Err(DoesNotPack);
      }
      r := Ok(SealAs(id, Data, epoch, keys.c2sData, dataNumber, plaintext));
      dataNumber := dataNumber + 1;
    }

    method SealCurrentControl(plaintext: Bytes) returns (r: Result<Sealed, ClientError>)
      requires Valid()
      modifies `controlNumber
      ensures Valid()
      ensures (Model(), r) == ClientCore.SealCurrentControl(old(Model()), plaintext)
    {
      if !Packs(epoch, controlNumber, plaintext) {
        return Err(DoesNotPack);
      }
      r := Ok(SealAs(id, Control, epoch, keys.c2sControl, controlNumber, plaintext));
      controlNumber := controlNumber + 1;
    }

    method AcceptUpdateRequest(record: Sealed, body: Bytes, nonce: Digest, now: nat)
      returns (r: Result<Sealed, ClientError>)
      requires Valid()
      modifies `transcript, `controlNumber, `pending
      ensures Valid()
      ensures (Model(), r) == ClientCore.AcceptUpdateRequest(p, old(Model()), record, body, nonce, now)
    {
      hide TranscriptNext, UpdateInput, InitPlaintext, ClientWindow.Model, ClientWindow.Valid;
      if |body| != 4 || FromBigEndian(body) != epoch {
        return Err(InvalidRequest);
      }
      if pending.Some? {
        return Err(ConcurrentRequest);
      }
      transcript := TranscriptNext(p, transcript, record);
      var nextEpoch := epoch + 1;
      if nextEpoch >= U32_LIMIT {
        return Err(DoesNotPack);
      }
      var input := UpdateInput(id, epoch, nextEpoch, nonce, transcript);
      var context := p.sha256(input);
      var tag := p.hmac(secret, input);
      r := SealCurrentControl(InitPlaintext(epoch, nonce, tag));
      if r.Err? {
        return;
      }
      transcript := TranscriptNext(p, transcript, r.value);
      pending := Some(Update(nextEpoch, context, now, None));
    }

    method AcceptUpdateAck(record: Sealed, body: Bytes) returns (r: Result<Sealed, ClientError>)
      requires Valid()
      modifies `transcript, `pending, `Repr
      ensures Valid() && fresh(Repr - old(Repr))
      ensures (Model(), r) == ClientCore.AcceptUpdateAck(p, old(Model()), record, body)
    {
      hide TranscriptNext, LabelledTag, ConfirmationKey, DeriveKeys, FrameBytes, ClientWindow.Model, ClientWindow.Valid;
      if pending.None? || |body| != 36 {
        return Err(UnexpectedAck);
      }
      var current := pending.value;
      var nextEpoch := FromBigEndian(body[..4]);
      if nextEpoch != current.epoch {
        return Err(AckEpoch);
      }
      var nextSecret := p.hmac(secret, current.context);
      var confirmKey := ConfirmationKey(p, nextSecret, id, nextEpoch);
      if body[4..] != LabelledTag(p, confirmKey, ServerAck, current.context) {
        return Err(InvalidAck);
      }
      var nextKeys := DeriveKeys(p, nextSecret, id, nextEpoch);
      var data := new ClientWindow(DEFAULT_REPLAY_WINDOW);
      var control := new ClientWindow(DEFAULT_REPLAY_WINDOW);
      pending := Some(current.(next := Some(NextEpoch(nextKeys, nextSecret, confirmKey, data, control))));
      Repr := Repr + {data, control};
      transcript := TranscriptNext(p, transcript, record);
      var commit := CommitRecord(p, id, nextEpoch, nextKeys, confirmKey, current.context);
      transcript := TranscriptNext(p, transcript, commit);
      return Ok(commit);
    }

    method AcceptUpdateDone(record: Sealed, body: Bytes) returns (r: Result<(), ClientError>)
      requires Valid()
      modifies this
      ensures Valid() && Repr == old(Repr)
      ensures (Model(), r) == ClientCore.AcceptUpdateDone(p, old(Model()), record, body)
    {
      hide TranscriptNext, LabelledTag, ClientWindow.Model, ClientWindow.Valid;
      if pending.None? || pending.value.next.None? || |body| != 36 {
        return Err(UnexpectedDone);
      }
      var next := pending.value.next.value;
      var nextEpoch := FromBigEndian(body[..4]);
      if nextEpoch != pending.value.epoch || body[4..]
        != LabelledTag(p, next.confirmKey, ServerDone, pending.value.context) {
        return Err(InvalidDone);
      }
      transcript := TranscriptNext(p, transcript, record);
      Enter(nextEpoch);
      return Ok(());
    }

    /** What was derived for the next epoch is taken into use, its windows included. */
    method Enter(nextEpoch: nat)
      requires Valid() && HasNext()
      modifies this
      ensures Valid() && Repr == old(Repr) && transcript == old(transcript)
      ensures var before := old(Model());
              var next := before.pending.value.next.value;
              Model() == before.(keys := next.keys, secret := next.secret, epoch := nextEpoch, dataNumber := 0,
                                 controlNumber := 1,
                                 dataWindow := next.dataWindow, controlWindow := next.controlWindow, pending := None)
    {
      hide ClientWindow.Model, ClientWindow.Valid;
      var next := pending.value.next.value;
      keys := next.keys;
      secret := next.secret;
      epoch := nextEpoch;
      dataNumber := 0;
      controlNumber := 1;
      dataWindow := next.dataWindow;
      controlWindow := next.controlWindow;
      pending := None;
    }

    /** Opens a record at one key and window. */
    static method OpenAt(id: Bytes, epoch: nat, key: Digest, window: ClientWindow, record: Sealed)
      returns (r: Result<Bytes, ClientError>)
      requires window.Valid()
      modifies window
      ensures window.Valid()
      ensures (window.Model(), r) == OpenWith(id, epoch, key, old(window.Model()), record)
    {
      var plausible := window.Plausible(record.header.number);
      if !plausible {
        return Err(ReplayRejected);
      }
      if record.header != SealAs(id, record.header.kind, epoch, key, record.header.number, record.plaintext).header {
        return Err(BadHeader);
      }
      if record.key != key {
        return Err(BadTag);
      }
      var accepted := window.CommitAuthenticated(record.header.number);
      if !accepted {
        assert false;
      }
      return Ok(record.plaintext);
    }

    /** Chooses keys and window by the record's epoch and kind, and opens the record there. */
    method OpenRecord(record: Sealed) returns (r: Result<(Bytes, Position), ClientError>)
      requires Valid()
      modifies Repr
      ensures Valid() && Repr == old(Repr)
      ensures (Model(), r) == ClientCore.OpenRecord(old(Model()), record)
    {
      hide OpenWith, ClientWindow.Model, ClientWindow.Valid;
      var h := record.header;
      if h.sessionId != id {
        return Err(InvalidRecord);
      }
      var opening: Result<Bytes, ClientError>;
      if h.epoch == epoch {
        if h.kind == Control {
          opening := OpenAt(id, epoch, keys.s2cControl, controlWindow, record);
        } else {
          opening := OpenAt(id, epoch, keys.s2cData, dataWindow, record);
        }
        return if opening.Ok? then Ok((opening.value, Current)) else Err(opening.error);
      }
      if pending.Some? && h.epoch == pending.value.epoch && h.kind == Control {
        if pending.value.next.None? {
          return Err(MissingKeys);
        }
        var next := pending.value.next.value;
        opening := OpenAt(id, pending.value.epoch, next.keys.s2cControl, next.controlWindow, record);
        return if opening.Ok? then Ok((opening.value, Pending_)) else Err(opening.error);
      }
      return Err(EpochMismatch);
    }

    method Receive(record: Sealed, nonce: Digest, now: nat) returns (r: Result<Received, ClientError>)
      requires Valid()
      modifies Repr
      ensures Valid() && fresh(Repr - old(Repr))
      ensures (Model(), r) == ClientCore.Receive(p, old(Model()), record, nonce, now)
    {
      hide ClientCore.OpenRecord, ClientCore.AcceptUpdateRequest, ClientCore.AcceptUpdateAck,
           ClientCore.AcceptUpdateDone, ClientFrames, Model;
      var opening := OpenRecord(record);
      if opening.Err? {
        return Err(opening.error);
      }
      var position := opening.value.1;
      var parsed := ClientFrames(opening.value.0);
      if parsed.Err? {
        return Err(BadFrames);
      }
      var frames := parsed.value;
      if record.header.kind == Data {
        return Ok(Received(frames, None));
      }
      if |frames| != 1 {
        if exists f | f in frames :: SecurityCritical(f) {
          return Err(NotSingleFrame);
        }
        return Ok(Received([], None));
      }
      var f := frames[0];
      if f.frameType == 0x04 && position == Current {
        var init := AcceptUpdateRequest(record, f.body, nonce, now);
        return if init.Ok? then Ok(Received([], Some(init.value))) else Err(init.error);
      }
      if f.frameType == 0x06 && position == Current {
        var commit := AcceptUpdateAck(record, f.body);
        return if commit.Ok? then Ok(Received([], Some(commit.value))) else Err(commit.error);
      }
      if f.frameType == 0x08 && position == Pending_ {
        var done := AcceptUpdateDone(record, f.body);
        return if done.Ok? then Ok(Received([], None)) else Err(done.error);
      }
      return Ok(Received([], None));
    }
  }
}
