/** What a rekey message has to prove before it moves anything: for every record, exactly when the server leaves
    an epoch or gets a pending one, and exactly when the client follows. Keys, labels and tags are spelled out. */
module RekeyProofs {
  import opened Prelude
  import opened Record
  import opened ReplayWindow
  import opened Rekey
  import opened ServerRecords
  import opened EpochPositions
  import Safety = RekeySafety

  // ---- Opening ----

  /** The record is what the other end would seal for this receiver, under its key and with a number that the
      window still takes. */
  predicate Fits(r: Sealed, at: Receiver) {
    && r.header.Valid()
    && r.header == Header(at.kind, at.epoch % 2 != 0, r.header.padded, at.sessionId, at.epoch, r.header.number,
                          |r.plaintext| + TAG_LEN)
    && r.key == at.key
    && at.window.Plausible(r.header.number)
  }

  /** Where a record can be opened: in the current epoch while the counters hold, in the pending one if it is a
      control record, in the previous one while its budget and its time last. */
  predicate OpensAt(s: Session, r: Sealed, now: nat, position: Position) {
    match position
    case Current =>
      && Fits(r, s.current.Receiver(r.header.kind))
      && (r.header.kind == Data ==>
            s.dataRecords + 1 < U64_LIMIT && s.plaintextBytes + |r.plaintext| < U64_LIMIT)
    case Pending_ =>
      s.pending.Some? && r.header.kind == Control && Fits(r, s.pending.value.state.c2sControl)
    case Previous_ =>
      && s.previous.Some? && s.previous.value.remaining > 0 && now < s.previous.value.expiresAt
      && Fits(r, s.previous.value.state.Receiver(r.header.kind))
  }

  lemma OpenFromIff(p: Primitives, id: Bytes, e: Epoch, r: Sealed)
    requires Safety.WellKeyed(p, id, e) && r.header.Valid() && r.header.epoch == e.epoch
    ensures OpenFrom(e, r).1.Ok? <==> Fits(r, e.Receiver(r.header.kind))
    ensures OpenFrom(e, r).1.Ok? ==> OpenFrom(e, r).1.value == r.plaintext
  {
  }

  lemma FitsEpoch(p: Primitives, id: Bytes, e: Epoch, r: Sealed, kind: RecordKind)
    requires Safety.WellKeyed(p, id, e)
    ensures Fits(r, e.Receiver(kind)) ==> r.header.Valid() && r.header.epoch == e.epoch && r.header.kind == kind
  {
  }

  /** A record is opened at a position exactly when it fits there, and then as it was sealed. */
  lemma OpensIff(p: Primitives, s: Session, r: Sealed, now: nat, position: Position)
    requires Safety.Shape(p, s)
    ensures Open(s, r, now).1 == Ok(OpenedRecord(r.header, r.plaintext, position)) <==> OpensAt(s, r, now, position)
    ensures Open(s, r, now).1.Ok? && Open(s, r, now).1.value.position == position ==> OpensAt(s, r, now, position)
  {
    hide OpenFrom, TrafficKey, Fits, Safety.WellKeyed, Header.Valid;
    FitsEpoch(p, s.id, s.current, r, r.header.kind);
    if s.pending.Some? { FitsEpoch(p, s.id, s.pending.value.state, r, Control); }
    if s.previous.Some? { FitsEpoch(p, s.id, s.previous.value.state, r, r.header.kind); }
    if r.header.Valid() {
      if r.header.epoch == s.current.epoch { OpenFromIff(p, s.id, s.current, r); }
      if s.pending.Some? && r.header.epoch == s.pending.value.state.epoch {
        OpenFromIff(p, s.id, s.pending.value.state, r);
      }
      if s.previous.Some? && r.header.epoch == s.previous.value.state.epoch {
        OpenFromIff(p, s.id, s.previous.value.state, r);
      }
    }
  }

  // ---- Records of one frame ----

  /** A control record of exactly one frame. */
  predicate IsFrame(r: Sealed, f: Frame) {
    r.header.kind == Control && Frames(r.plaintext, Control) == Ok([f])
  }

  lemma OneFrameIsHandled(p: Primitives, s: Session, r: Sealed, position: Position, f: Frame, env: Env, arrived: nat,
                          now: nat)
    requires Safety.Shape(p, s) && IsFrame(r, f) && OpensAt(s, r, arrived, position)
    ensures ProcessRecord(p, s, r, env, arrived, now).0
            == HandleFrame(p, Open(s, r, arrived).0, r, position, f, env, now).0
  {
    hide Open, HandleFrame, Frames, OpensAt, Safety.Shape;
    OpensIff(p, s, r, arrived, position);
    OneFrame(p, Open(s, r, arrived).0, r, position, f, env, now);
  }

  /** What opening a record leaves as it was: all that a rekey message is checked against. */
  predicate SameChecks(s: Session, s1: Session) {
    && s1.id == s.id && s1.transcript == s.transcript
    && s1.current.epoch == s.current.epoch && s1.current.secret == s.current.secret
    && s1.current.s2cControl == s.current.s2cControl
    && (s1.pending.Some? <==> s.pending.Some?)
    && (s.pending.Some? ==>
          && s1.pending.value.proof == s.pending.value.proof
          && s1.pending.value.state.epoch == s.pending.value.state.epoch)
  }

  lemma OpenKeepsChecks(s: Session, r: Sealed, now: nat)
    ensures SameChecks(s, Open(s, r, now).0)
  {
    hide OpenAt;
  }

  // ---- The server leaves an epoch ----

  /** The one body that proves a rekey is finished: the pending epoch, and under its confirmation key the tag of
      its label and context. */
  function FinishBody(p: Primitives, pending: Pending): Bytes {
    var name := if pending.proof.Routine? then "client commit" else "client confirm";
    BigEndian(pending.state.epoch, 4) + p.hmac(pending.proof.confirmKey, Ascii(name) + pending.proof.context)
  }

  function FinishFrame(p: Primitives, pending: Pending): Frame {
    Frame(if pending.proof.Routine? then 0x07 else 0x0B, 0, FinishBody(p, pending))
  }

  lemma TaggedBody(body: Bytes, epoch: nat, tag: Digest)
    requires epoch < U32_LIMIT
    ensures body == BigEndian(epoch, 4) + tag <==>
            |body| == 36 && FromBigEndian(body[0..4]) == epoch && body[4..36] == tag
  {
    IntegersDecode(epoch);
    if |body| == 36 {
      BigEndianEncodes(body[0..4]);
      assert body == body[0..4] + body[4..36];
    }
    if body == BigEndian(epoch, 4) + tag { assert body[0..4] == BigEndian(epoch, 4) && body[4..36] == tag; }
  }

  lemma CommitIff(p: Primitives, s: Session, r: Sealed, body: Bytes, now: nat)
    requires Safety.Shape(p, s)
    ensures AcceptUpdateCommit(p, s, r, body, now).0.current.epoch != s.current.epoch <==>
            s.pending.Some? && s.pending.value.proof.Routine? && body == FinishBody(p, s.pending.value)
    ensures AcceptFullRekeyConfirm(p, s, r, body, now).0.current.epoch != s.current.epoch <==>
            s.pending.Some? && s.pending.value.proof.Full? && body == FinishBody(p, s.pending.value)
  {
    hide Rotate, Ascii, FromBigEndian, BigEndian;
    if s.pending.Some? {
      var pending := s.pending.value;
      RotationMoves(p, s, r, now);
      assert pending.state.epoch < U32_LIMIT;
      TaggedBody(body, pending.state.epoch, LabelledTag(p, pending.proof.confirmKey, ClientCommit,
                                                        pending.proof.context));
      TaggedBody(body, pending.state.epoch, LabelledTag(p, pending.proof.confirmKey, ClientConfirm,
                                                        pending.proof.context));
    }
  }

  lemma RotationMoves(p: Primitives, s: Session, r: Sealed, now: nat)
    requires Safety.Shape(p, s) && s.pending.Some?
    ensures Rotate(p, s, r, now).0.current.epoch == s.current.epoch + 1
  {
    hide TranscriptNext, LabelledTag, FrameBytes;
  }

  /** The server leaves its epoch if and only if the record opens in the pending one and is the one frame that
      proves the rekey finished. */
  lemma LeavesEpochIff(p: Primitives, s: Session, r: Sealed, env: Env, arrived: nat, now: nat)
    requires Safety.Shape(p, s)
    ensures ProcessRecord(p, s, r, env, arrived, now).0.current.epoch != s.current.epoch <==>
            s.pending.Some? && OpensAt(s, r, arrived, Pending_) && IsFrame(r, FinishFrame(p, s.pending.value))
  {
    hide Safety.Shape, Open, HandleFrame, Frames, OpensAt, ProcessRecord, FinishBody, AcceptUpdateCommit,
         AcceptFullRekeyConfirm;
    OnlyRekeyRecordsMoveEpochs(p, s, r, env, arrived, now);
    OpenKeepsChecks(s, r, arrived);
    Safety.OpenCallEffect(p, s, r, arrived);
    var after := Open(s, r, arrived).0;
    if s.pending.Some? { SameFinish(p, s.pending.value, after.pending.value); }
    if ProcessRecord(p, s, r, env, arrived, now).0.current.epoch != s.current.epoch {
      assert CarriesOnly(r, 0x07, 0x0B);
      var f := Frames(r.plaintext, Control).value[0];
      assert IsFrame(r, f) by { assert Frames(r.plaintext, Control).value == [f]; }
      var position := MovedWhere(p, s, r, env, arrived, now);
      OneFrameIsHandled(p, s, r, position, f, env, arrived, now);
      FinishFrameIff(p, after, r, position, f, env, now);
    }
    if s.pending.Some? && OpensAt(s, r, arrived, Pending_) && IsFrame(r, FinishFrame(p, s.pending.value)) {
      OneFrameIsHandled(p, s, r, Pending_, FinishFrame(p, s.pending.value), env, arrived, now);
      FinishFrameIff(p, after, r, Pending_, FinishFrame(p, s.pending.value), env, now);
    }
  }

  lemma SameFinish(p: Primitives, a: Pending, b: Pending)
    requires a.proof == b.proof && a.state.epoch == b.state.epoch
    ensures FinishFrame(p, a) == FinishFrame(p, b)
  {
  }

  /** A session that changes has opened the record somewhere. */
  lemma MovedWhere(p: Primitives, s: Session, r: Sealed, env: Env, arrived: nat, now: nat) returns (position: Position)
    requires Safety.Shape(p, s)
    requires var s1 := ProcessRecord(p, s, r, env, arrived, now).0;
             s1.current.epoch != s.current.epoch || (s1.pending.Some? <==> s.pending.None?)
    ensures OpensAt(s, r, arrived, position)
  {
    hide Safety.Shape, Open, ActOn, OpensAt;
    OpenKeepsChecks(s, r, arrived);
    var opening := Open(s, r, arrived).1;
    position := opening.value.position;
    OpensIff(p, s, r, arrived, position);
  }

  lemma FinishFrameIff(p: Primitives, s: Session, r: Sealed, position: Position, f: Frame, env: Env, now: nat)
    requires Safety.Shape(p, s) && (f.frameType == 0x07 || f.frameType == 0x0B)
    ensures HandleFrame(p, s, r, position, f, env, now).0.current.epoch != s.current.epoch <==>
            s.pending.Some? && position == Pending_ && f == FinishFrame(p, s.pending.value)
  {
    hide Safety.Shape, AcceptUpdateCommit, AcceptFullRekeyConfirm, FinishBody;
    CommitIff(p, s, r, f.body, now);
  }

  // ---- The server gets a pending epoch ----

  /** The one frame of a control record that has no other. */
  function TheFrame(r: Sealed): Option<Frame> {
    if r.header.kind != Control then None
    else
      match Frames(r.plaintext, Control)
      case Err(_) => None
      case Ok(frames) => if |frames| == 1 then Some(frames[0]) else None
  }

  lemma TheFrameMeans(r: Sealed, f: Frame)
    ensures TheFrame(r) == Some(f) <==> IsFrame(r, f)
  {
    hide Frames;
    if TheFrame(r) == Some(f) { assert Frames(r.plaintext, Control).value == [f]; }
  }

  /** The session's epoch and the next. */
  predicate NamesEpochs(s: Session, body: Bytes) {
    |body| >= 8 && s.current.epoch + 1 < U32_LIMIT
    && body[..8] == BigEndian(s.current.epoch, 4) + BigEndian(s.current.epoch + 1, 4)
  }

  lemma EpochsRead(s: Session, body: Bytes)
    requires |body| >= 8 && s.current.epoch < U32_LIMIT
    ensures NamesEpochs(s, body) <==>
            && FromBigEndian(body[0..4]) == s.current.epoch && s.current.epoch + 1 < U32_LIMIT
            && FromBigEndian(body[4..8]) == s.current.epoch + 1
    ensures body[..8] == BigEndian(FromBigEndian(body[0..4]), 4) + BigEndian(FromBigEndian(body[4..8]), 4)
  {
    BigEndianEncodes(body[0..4]);
    BigEndianEncodes(body[4..8]);
    IntegersDecode(s.current.epoch);
    IntegersDecode(s.current.epoch + 1);
    assert body[..8] == body[0..4] + body[4..8];
    if NamesEpochs(s, body) {
      assert body[0..4] == body[..8][..4] == BigEndian(s.current.epoch, 4);
      assert body[4..8] == body[..8][4..] == BigEndian(s.current.epoch + 1, 4);
    }
  }

  /** INIT proves that the client knows the secret and the transcript of the current epoch. */
  predicate ProvesInit(p: Primitives, s: Session, body: Bytes) {
    && |body| == 72 && NamesEpochs(s, body)
    && body[40..] == p.hmac(s.current.secret,
                            Ascii("RekaSerdoba/1 epoch update") + s.id + body[..8] + body[8..40] + s.transcript)
  }

  lemma InitIff(p: Primitives, s: Session, r: Sealed, body: Bytes, now: nat)
    requires Safety.Shape(p, s) && s.pending.None?
    ensures var s1 := AcceptUpdateInit(p, s, r, body, now).0;
            && (s1.pending.Some? <==> ProvesInit(p, s, body) && s.current.s2cControl.next < MAX_RECORDS_PER_EPOCH)
            && (s1.pending.Some? ==> s1.pending.value.proof.Routine?)
  {
    hide TranscriptNext, LabelledTag, ConfirmationKey, FromBigEndian, BigEndian, NewEpoch, Ascii, NamesEpochs;
    if |body| == 72 {
      EpochsRead(s, body);
      assert body[40..] == body[40..72];
      InputInOrder(s, body);
      AckFits(p, s, body, r);
    }
  }

  lemma InputInOrder(s: Session, body: Bytes)
    requires |body| == 72 && body[..8] == BigEndian(FromBigEndian(body[0..4]), 4)
             + BigEndian(FromBigEndian(body[4..8]), 4)
    ensures UpdateInput(s.id, FromBigEndian(body[0..4]), FromBigEndian(body[4..8]), body[8..40], s.transcript)
            == Ascii("RekaSerdoba/1 epoch update") + s.id + body[..8] + body[8..40] + s.transcript
  {
    hide Ascii, FromBigEndian, BigEndian;
    var a, b := BigEndian(FromBigEndian(body[0..4]), 4), BigEndian(FromBigEndian(body[4..8]), 4);
    var front := Ascii("RekaSerdoba/1 epoch update") + s.id;
    assert front + a + b == front + (a + b);
  }

  /** ACK is sealed while the control numbers of the epoch last. */
  lemma AckFits(p: Primitives, s: Session, body: Bytes, r: Sealed)
    requires |body| == 72
    ensures forall epoch: nat, tag: Digest ::
              SealTranscribed(p, s.(transcript := TranscriptNext(p, s.transcript, r)), 0x06,
                              BigEndian(epoch, 4) + tag).1.Ok?
              <==> s.current.s2cControl.next < MAX_RECORDS_PER_EPOCH
  {
    hide TranscriptNext, BigEndian;
    forall epoch: nat, tag: Digest
      ensures |FrameBytes(Frame(0x06, 0, BigEndian(epoch, 4) + tag))| == 40
    {
    }
  }

  /** INIT of a full rekey proves that the client's signing key was used on this transcript. */
  predicate ProvesFullInit(p: Primitives, s: Session, env: Env, body: Bytes) {
    && |body| == 120 && NamesEpochs(s, body)
    && p.verify(env.clientKey, p.sha256(Ascii("RekaSerdoba/1 full rekey client") + s.id + body[..56] + s.transcript),
                body[56..])
  }

  /** The answer to it, which has to fit a record, and a secret that is not all zero. */
  predicate Answerable(p: Primitives, s: Session, r: Sealed, env: Env, body: Bytes)
    requires |body| == 120
  {
    var signature := p.sign(env.serverKey,
                            p.sha256(Ascii("RekaSerdoba/1 full rekey server") + s.id + body[..56]
                                     + p.publicKey(env.ephemeral)
                                     + TranscriptNext(p, s.transcript, r)));
    && s.current.s2cControl.next < MAX_RECORDS_PER_EPOCH
    && 4 + 24 + 32 + |signature| + TAG_LEN <= MAX_CIPHERTEXT_LEN
    && p.diffieHellman(env.ephemeral, body[24..56]) != ALL_ZERO
  }

  lemma ContextInOrder(p: Primitives, id: Bytes, body: Bytes, part: Bytes, transcript: Digest)
    requires |body| == 120
    ensures FullRekeyContext(p, ClientSigned, id, body, part, transcript)
            == p.sha256(Ascii("RekaSerdoba/1 full rekey client") + id + body[..56] + part + transcript)
    ensures FullRekeyContext(p, ServerSigned, id, body, part, transcript)
            == p.sha256(Ascii("RekaSerdoba/1 full rekey server") + id + body[..56] + part + transcript)
    ensures FullRekeyContext(p, KeyContext, id, body, part, transcript)
            == p.sha256(Ascii("RekaSerdoba/1 full rekey") + id + body[..56] + part + transcript)
  {
    hide Ascii;
    assert body[..56] == body[0..8] + body[8..24] + body[24..56];
    forall front: Bytes
      ensures front + body[0..8] + body[8..24] + body[24..56] == front + body[..56]
    {
    }
  }

  lemma FullInitIff(p: Primitives, s: Session, r: Sealed, body: Bytes, env: Env, now: nat)
    requires Safety.Shape(p, s) && s.pending.None?
    ensures var s1 := AcceptFullRekeyInit(p, s, r, body, env.clientKey, env.serverKey, env.ephemeral, now).0;
            && (s1.pending.Some? <==> ProvesFullInit(p, s, env, body) && Answerable(p, s, r, env, body))
            && (s1.pending.Some? ==> s1.pending.value.proof.Full?)
  {
    hide TranscriptNext, FromBigEndian, BigEndian, NewEpoch, Ascii, NamesEpochs, FullRekeyContext, AnswerFullRekeyInit;
    if |body| == 120 {
      EpochsRead(s, body);
      assert body[56..120] == body[56..];
      ContextInOrder(p, s.id, body, [], s.transcript);
      assert forall front: Bytes :: front + [] == front;
      AnswerIff(p, s, r, body, env, now);
    }
  }

  lemma AnswerIff(p: Primitives, s: Session, r: Sealed, body: Bytes, env: Env, now: nat)
    requires s.pending.None? && |body| == 120
    ensures var noted := s.(transcript := TranscriptNext(p, s.transcript, r));
            var s1 := AnswerFullRekeyInit(p, noted, body, env.serverKey, env.ephemeral, now).0;
            && (s1.pending.Some? <==> Answerable(p, s, r, env, body))
            && (s1.pending.Some? ==> s1.pending.value.proof.Full?)
  {
    hide TranscriptNext, BigEndian, NewEpoch, Ascii, FullRekeyContext;
    var noted := s.(transcript := TranscriptNext(p, s.transcript, r));
    ContextInOrder(p, s.id, body, p.publicKey(env.ephemeral), noted.transcript);
    var signature := ServerSignature(p, noted, body, env.serverKey, env.ephemeral);
    assert |FrameBytes(Frame(0x0A, 0, body[0..24] + p.publicKey(env.ephemeral) + signature))| == 60 + |signature|;
  }

  /** A session without a pending epoch gets one if and only if a control record opens in the current epoch and is
      one frame that proves an INIT; the kind of the proof is the kind of the INIT. */
  lemma GetsPendingIff(p: Primitives, s: Session, r: Sealed, env: Env, arrived: nat, now: nat)
    requires Safety.Shape(p, s) && s.pending.None?
    ensures var s1 := ProcessRecord(p, s, r, env, arrived, now).0;
            var f := TheFrame(r);
            var opens := OpensAt(s, r, arrived, Current) && f.Some? && f.value.flags == 0;
            && (s1.pending.Some? && s1.pending.value.proof.Routine? <==>
                  && opens && f.value.frameType == 0x05 && ProvesInit(p, s, f.value.body)
                  && s.current.s2cControl.next < MAX_RECORDS_PER_EPOCH)
            && (s1.pending.Some? && s1.pending.value.proof.Full? <==>
                  && opens && f.value.frameType == 0x09 && ProvesFullInit(p, s, env, f.value.body)
                  && Answerable(p, s, r, env, f.value.body))
  {
    hide Safety.Shape, Open, HandleFrame, Frames, OpensAt, ProcessRecord, ProvesInit, ProvesFullInit, Answerable,
         TheFrame;
    OnlyRekeyRecordsMoveEpochs(p, s, r, env, arrived, now);
    OpenKeepsChecks(s, r, arrived);
    Safety.OpenCallEffect(p, s, r, arrived);
    var after := Open(s, r, arrived).0;
    var s1 := ProcessRecord(p, s, r, env, arrived, now).0;
    var f := TheFrame(r);
    if f.Some? { TheFrameMeans(r, f.value); }
    if s1.pending.Some? {
      assert CarriesOnly(r, 0x05, 0x09);
      var g := Frames(r.plaintext, Control).value[0];
      assert IsFrame(r, g) by { assert Frames(r.plaintext, Control).value == [g]; }
      TheFrameMeans(r, g);
      var position := MovedWhere(p, s, r, env, arrived, now);
      OneFrameIsHandled(p, s, r, position, g, env, arrived, now);
      InitFrameIff(p, s, after, r, position, g, env, now);
    } else if f.Some? && OpensAt(s, r, arrived, Current) && (f.value.frameType == 0x05 || f.value.frameType == 0x09) {
      OneFrameIsHandled(p, s, r, Current, f.value, env, arrived, now);
      InitFrameIff(p, s, after, r, Current, f.value, env, now);
    }
  }

  lemma InitFrameIff(p: Primitives, s: Session, after: Session, r: Sealed, position: Position, f: Frame, env: Env,
                     now: nat)
    requires Safety.Shape(p, after) && SameChecks(s, after) && s.pending.None?
             && (f.frameType == 0x05 || f.frameType == 0x09)
    ensures var s1 := HandleFrame(p, after, r, position, f, env, now).0;
            && (s1.pending.Some? && s1.pending.value.proof.Routine? <==>
                  && position == Current && f.flags == 0 && f.frameType == 0x05 && ProvesInit(p, s, f.body)
                  && s.current.s2cControl.next < MAX_RECORDS_PER_EPOCH)
            && (s1.pending.Some? && s1.pending.value.proof.Full? <==>
                  && position == Current && f.flags == 0 && f.frameType == 0x09 && ProvesFullInit(p, s, env, f.body)
                  && Answerable(p, s, r, env, f.body))
  {
    hide Safety.Shape, AcceptUpdateInit, AcceptFullRekeyInit, Ascii, TranscriptNext, BigEndian;
    InitIff(p, after, r, f.body, now);
    FullInitIff(p, after, r, f.body, env, now);
  }

  // ---- Sealing, asking and bundles ----

  /** What one end seals, the receiver with the same key takes as it was, padding flag included, exactly when its
      window takes the number; a record is sealed while it is short enough and the numbers last. */
  lemma SealedIsOpened(s: Sender, at: Receiver, plaintext: Bytes, padded: bool)
    requires at.kind == s.kind && at.sessionId == s.sessionId && at.epoch == s.epoch && at.key == s.key
    requires |s.sessionId| == 16 && s.epoch < U32_LIMIT && at.window.Valid()
    ensures var r := Seal(s, plaintext, padded).1;
            && (r.Ok? <==> |plaintext| + 16 <= MAX_CIPHERTEXT_LEN && s.next < MAX_RECORDS_PER_EPOCH)
            && (r.Ok? ==>
                  && r.value.header.padded == padded && r.value.header.number == s.next
                  && (Fits(r.value, at) <==> at.window.Plausible(s.next))
                  && (OpenAt(at, r.value).1 == Ok(plaintext) <==> at.window.Plausible(s.next)))
  {
  }

  /** The session asks for an update exactly when none is under way, control numbers are left, and the epoch is 600 s
      old or has carried 2^20 data records or 2^30 bytes; it gives up exactly on the deadline, 10 s after asking. */
  lemma AsksIff(p: Primitives, s: Session, now: nat)
    requires Safety.Shape(p, s)
    ensures var (s1, r) := RequestUpdateIfDue(p, s, now);
            var late := s.updateDeadline.Some? && now >= s.updateDeadline.value;
            && (r == Err(UpdateTimedOut) <==> late)
            && (r.Ok? && r.value.Some? <==>
                  && !late && s.pending.None? && !s.updateRequested && s.current.s2cControl.next < MAX_RECORDS_PER_EPOCH
                  && (now >= s.epochStarted + 600_000_000_000 || s.dataRecords >= 1_048_576
                      || s.plaintextBytes >= 1_073_741_824))
            && (r.Ok? && r.value.Some? ==>
                  && s1.updateDeadline == Some(now + 10_000_000_000)
                  && IsFrame(r.value.value, Frame(0x04, 0, BigEndian(s.current.epoch, 4)))
                  && ClientFrames(r.value.value.plaintext) == Ok([Frame(0x04, 0, BigEndian(s.current.epoch, 4))]))
  {
    hide TranscriptNext, BigEndian, FrameBytes, FramesBytes;
    var f := Frame(0x04, 0, BigEndian(s.current.epoch, 4));
    FrameLayout(f, []);
    assert |FrameBytes(f)| == 8 by { assert FrameBytes(f) + [] == FrameBytes(f); }
    OneFramePrinted(f);
    ParsersAgree([f], Control);
  }

  lemma OneFramePrinted(f: Frame)
    ensures FramesBytes([f]) == FrameBytes(f)
  {
    hide FrameBytes;
    assert FramesBytes([]) == [];
  }

  /** A new session asks for its first update exactly when it is 600 s old. */
  lemma NewSessionAsks(p: Primitives, id: Bytes, secret: Digest, handshakeTranscript: Digest, created: nat, now: nat)
    ensures var r := RequestUpdateIfDue(p, New(p, id, secret, handshakeTranscript, created), now).1;
            r.Ok? && (r.value.Some? <==> now >= created + 600_000_000_000)
  {
    hide Ascii, TrafficKey, TranscriptNext, Safety.LogInv, Safety.Shape;
    Safety.NewSessionStartsWell(p, id, secret, handshakeTranscript, created);
    AsksIff(p, New(p, id, secret, handshakeTranscript, created), now);
  }

  /** A control record of no frame or several is refused exactly when one of them is of a type from 4 to 0x11; then
      nothing has happened beyond opening it. */
  lemma BundledIsRefusedIff(p: Primitives, s: Session, r: Sealed, env: Env, arrived: nat, now: nat)
    requires Safety.Shape(p, s) && Open(s, r, arrived).1.Ok?
    requires r.header.kind == Control && Frames(r.plaintext, Control).Ok?
    requires |Frames(r.plaintext, Control).value| != 1
    ensures var (s1, outcome) := ProcessRecord(p, s, r, env, arrived, now);
            && (outcome == Err(NotSingleFrame) <==>
                  exists f | f in Frames(r.plaintext, Control).value :: 0x04 <= f.frameType <= 0x11)
            && (outcome == Err(NotSingleFrame) ==> s1 == Open(s, r, arrived).0)
  {
    hide Safety.Shape, Open, Frames, HandleFrame, OpensAt;
    var opening := Open(s, r, arrived).1.value;
    OpensIff(p, s, r, arrived, opening.position);
    OpenedPlainly(s, r, arrived);
    if !exists f | f in Frames(r.plaintext, Control).value :: 0x04 <= f.frameType <= 0x11 {
      NeverNotSingle(p, Open(s, r, arrived).0, r, opening.position, Frames(r.plaintext, Control).value, env, now);
    }
  }

  lemma OpenedPlainly(s: Session, r: Sealed, now: nat)
    requires Open(s, r, now).1.Ok?
    ensures Open(s, r, now).1.value.plaintext == r.plaintext && Open(s, r, now).1.value.header == r.header
  {
  }

  lemma {:induction false} NeverNotSingle(p: Primitives, s: Session, r: Sealed, position: Position,
                                          frames: seq<Frame>, env: Env, now: nat)
    ensures HandleFrames(p, s, r, position, frames, env, now).1 != Err(NotSingleFrame)
    decreases |frames|
  {
    hide HandleFrame;
    if frames != [] {
      OneNeverNotSingle(p, s, r, position, frames[0], env, now);
      var (s1, outcome) := HandleFrame(p, s, r, position, frames[0], env, now);
      NeverNotSingle(p, s1, r, position, frames[1..], env, now);
    }
  }

  lemma OneNeverNotSingle(p: Primitives, s: Session, r: Sealed, position: Position, f: Frame, env: Env, now: nat)
    ensures HandleFrame(p, s, r, position, f, env, now).1 != Err(NotSingleFrame)
  {
    hide SealControl, AcceptUpdateInit, AcceptUpdateCommit, AcceptFullRekeyInit, AcceptFullRekeyConfirm, FrameBytes;
  }
}
