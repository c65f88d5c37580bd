/** How each end takes the records of an update: the message that the other end builds is accepted, and
    both derive the same keys from it. */
module RekeyExchange {
  import opened Prelude
  import opened Record
  import opened ReplayWindow
  import opened Rekey
  import opened ClientCore
  import opened ServerRecords
  import opened RekeyJoint
  import Safety = RekeySafety

  lemma SingleFrameParses(f: Frame, kind: RecordKind)
    requires |f.body| < U16_LIMIT && f.flags == 0 && Known(kind, f.frameType)
    ensures Frames(FrameBytes(f), kind) == Ok([f]) && ClientFrames(FrameBytes(f)) == Ok([f])
    ensures |FrameBytes(f)| == 4 + |f.body|
  {
    ParsersAgree([f], kind);
    assert FramesBytes([f]) == FrameBytes(f) + [];
    assert FrameBytes(f) + [] == FrameBytes(f);
  }

  /** Numbers that continue where the window stopped are taken by both kinds of window. */
  lemma NextIsTaken(w: Window, number: nat)
    requires w.Valid() && number == w.Next() < U32_LIMIT
    ensures w.Plausible(number) && w.Fresh(number)
    ensures w.Commit(number) == (w.Add(number), true)
    ensures w.Add(number).Next() == number + 1 && w.Add(number).Valid()
  {
  }

  /** One frame with a 4-byte epoch and a 32-byte tag. */
  lemma EpochTagBody(epoch: nat, tag: Digest)
    requires epoch < U32_LIMIT
    ensures var body := BigEndian(epoch, 4) + tag;
            && |body| == 36
            && FromBigEndian(body[0..4]) == epoch && FromBigEndian(body[..4]) == epoch
            && body[4..36] == tag && body[4..] == tag
  {
    IntegersDecode(epoch);
    var body := BigEndian(epoch, 4) + tag;
    assert body[0..4] == BigEndian(epoch, 4) && body[..4] == BigEndian(epoch, 4);
  }

  function InitBody(epoch: nat, nonce: Digest, tag: Digest): Bytes {
    BigEndian(epoch, 4) + BigEndian(epoch + 1, 4) + nonce + tag
  }

  lemma InitBodyParses(epoch: nat, nonce: Digest, tag: Digest)
    requires epoch + 1 < U32_LIMIT
    ensures var body := InitBody(epoch, nonce, tag);
            && |body| == 72
            && FromBigEndian(body[0..4]) == epoch && FromBigEndian(body[4..8]) == epoch + 1
            && body[8..40] == nonce && body[40..72] == tag
  {
    IntegersDecode(epoch);
    IntegersDecode(epoch + 1);
    var body := InitBody(epoch, nonce, tag);
    assert body[0..4] == BigEndian(epoch, 4) && body[4..8] == BigEndian(epoch + 1, 4);
  }

  // ---- The server takes a record ----

  lemma ServerOpensData(p: Primitives, s: Session, r: Sealed, now: nat)
    requires Safety.Shape(p, s) && |s.id| == 16
    requires s.current.c2sData.window.Next() < MAX_RECORDS_PER_EPOCH
    requires IsData(r, s.id, s.current.epoch, s.current.c2sData.key, s.current.c2sData.window.Next())
    requires s.dataRecords + 1 < U64_LIMIT && s.plaintextBytes + |r.plaintext| < U64_LIMIT
    ensures var number := s.current.c2sData.window.Next();
            Open(s, r, now) ==
            (ExpirePrevious(s, now).(
               current := s.current.(c2sData := s.current.c2sData.(window := s.current.c2sData.window.Add(number))),
               dataRecords := s.dataRecords + 1,
               plaintextBytes := s.plaintextBytes + |r.plaintext|),
             Ok(OpenedRecord(r.header, r.plaintext, Current)))
  {
    hide Frames, ClientFrames;
    NextIsTaken(s.current.c2sData.window, s.current.c2sData.window.Next());
  }

  lemma DataIsParsed(p: Primitives, s: Session, r: Sealed, position: Position, env: Env, now: nat)
    requires r.header.kind == Data && GoodPlaintext(r.plaintext)
    ensures ActOn(p, s, r, OpenedRecord(r.header, r.plaintext, position), env, now) == (s, Ok(Reply([], false)))
  {
    hide Frames, ClientFrames, HandleFrames;
  }

  /** A data record of the current epoch with the next number. */
  lemma ServerTakesData(p: Primitives, env: Env, s: Session, r: Sealed, now: nat)
    requires Safety.Shape(p, s) && |s.id| == 16
    requires s.current.c2sData.window.Next() < MAX_RECORDS_PER_EPOCH
    requires IsData(r, s.id, s.current.epoch, s.current.c2sData.key, s.current.c2sData.window.Next())
    requires s.dataRecords + 1 < U64_LIMIT && s.plaintextBytes + |r.plaintext| < U64_LIMIT
    ensures var number := s.current.c2sData.window.Next();
            ProcessRecord(p, s, r, env, now, now) ==
            (ExpirePrevious(s, now).(
               current := s.current.(c2sData := s.current.c2sData.(window := s.current.c2sData.window.Add(number))),
               dataRecords := s.dataRecords + 1,
               plaintextBytes := s.plaintextBytes + |r.plaintext|),
             Ok(Reply([], false)))
  {
    hide Open, ActOn, GoodPlaintext;
    ServerOpensData(p, s, r, now);
    DataIsParsed(p, Open(s, r, now).0, r, Current, env, now);
  }

  /** A data record of the retired epoch, within its grace. */
  lemma ServerTakesOldData(p: Primitives, env: Env, s: Session, r: Sealed, now: nat)
    requires Safety.Shape(p, s) && |s.id| == 16
    requires s.previous.Some? && s.previous.value.remaining > 0 && now < s.previous.value.expiresAt
    requires s.previous.value.state.c2sData.window.Next() < MAX_RECORDS_PER_EPOCH
    requires IsData(r, s.id, s.previous.value.state.epoch, s.previous.value.state.c2sData.key,
                    s.previous.value.state.c2sData.window.Next())
    ensures var previous := s.previous.value;
            var window := previous.state.c2sData.window;
            ProcessRecord(p, s, r, env, now, now) ==
            (s.(previous := Some(previous.(
               state := previous.state.(c2sData := previous.state.c2sData.(window := window.Add(window.Next()))),
               remaining := previous.remaining - 1))),
             Ok(Reply([], false)))
  {
    NextIsTaken(s.previous.value.state.c2sData.window, s.previous.value.state.c2sData.window.Next());
  }

  /** The two bounds of the joint run are exact: the next data record of the retired epoch is taken if and
      only if fewer than 128 were taken before it and its 3 s are not over. */
  lemma OldDataTakenIff(p: Primitives, env: Env, s: Session, r: Sealed, now: nat)
    requires Safety.Shape(p, s) && |s.id| == 16 && s.previous.Some?
    requires s.previous.value.state.c2sData.window.Next() < MAX_RECORDS_PER_EPOCH
    requires IsData(r, s.id, s.previous.value.state.epoch, s.previous.value.state.c2sData.key,
                    s.previous.value.state.c2sData.window.Next())
    ensures ProcessRecord(p, s, r, env, now, now).1.Ok?
            <==> s.previous.value.remaining > 0 && now < s.previous.value.expiresAt
  {
    hide IsData, ActOn;
    if s.previous.value.remaining > 0 && now < s.previous.value.expiresAt {
      ServerTakesOldData(p, env, s, r, now);
    } else {
      OldIsRefused(p, s, r, now);
    }
  }

  lemma OldIsRefused(p: Primitives, s: Session, r: Sealed, now: nat)
    requires Safety.Shape(p, s) && s.previous.Some?
    requires s.previous.value.remaining == 0 || now >= s.previous.value.expiresAt
    requires IsData(r, s.id, s.previous.value.state.epoch, s.previous.value.state.c2sData.key,
                    s.previous.value.state.c2sData.window.Next())
    ensures Open(s, r, now).1.Err?
  {
    hide GoodPlaintext;
  }

  /** Opening a control record that carries the next number at the current epoch. */
  lemma ServerOpensControl(p: Primitives, s: Session, r: Sealed, plaintext: Bytes, now: nat)
    requires Safety.Shape(p, s) && |s.id| == 16 && |plaintext| + TAG_LEN <= MAX_CIPHERTEXT_LEN
    requires s.current.c2sControl.window.Next() < U32_LIMIT
    requires r == SealAs(s.id, Control, s.current.epoch, s.current.c2sControl.key, s.current.c2sControl.window.Next(),
                         plaintext)
    ensures var window := s.current.c2sControl.window;
            Open(s, r, now) ==
            (ExpirePrevious(s, now).(current :=
                                     s.current.(c2sControl :=
                                                s.current.c2sControl.(window := window.Add(window.Next())))),
             Ok(OpenedRecord(r.header, plaintext, Current)))
  {
    NextIsTaken(s.current.c2sControl.window, s.current.c2sControl.window.Next());
  }

  lemma ServerOpensPending(p: Primitives, s: Session, r: Sealed, plaintext: Bytes, now: nat)
    requires Safety.Shape(p, s) && |s.id| == 16 && |plaintext| + TAG_LEN <= MAX_CIPHERTEXT_LEN
    requires s.pending.Some? && s.pending.value.state.c2sControl.window.seen == {}
    requires var state := s.pending.value.state;
             r == SealAs(s.id, Control, state.epoch, state.c2sControl.key, 0, plaintext)
    ensures var pending := s.pending.value;
            var control := pending.state.c2sControl;
            Open(s, r, now) ==
            (ExpirePrevious(s, now).(
               pending := Some(pending.(state :=
                                        pending.state.(c2sControl := control.(window := control.window.Add(0)))))),
             Ok(OpenedRecord(r.header, plaintext, Pending_)))
  {
    NextIsTaken(s.pending.value.state.c2sControl.window, 0);
  }

  /** A control record of one known frame is handed to the handler of that frame, and its answer is the
      answer to the record. */
  lemma OneFrameIsHandled(p: Primitives, s: Session, r: Sealed, position: Position, f: Frame, env: Env, now: nat)
    requires |f.body| < U16_LIMIT && f.flags == 0 && Known(Control, f.frameType) && f.frameType != 0x12
    requires r.header.kind == Control && r.plaintext == FrameBytes(f)
    ensures ActOn(p, s, r, OpenedRecord(r.header, r.plaintext, position), env, now)
         == HandleFrame(p, s, r, position, f, env, now)
  {
    hide HandleFrame, Frames, FrameBytes;
    SingleFrameParses(f, Control);
    var one := HandleFrame(p, s, r, position, f, env, now);
    assert HandleFrames(p, one.0, r, position, [f][1..], env, now) == (one.0, Ok(Reply([], false)));
    if one.1.Ok? {
      assert one.1.value.records + [] == one.1.value.records;
      HandleCloses(p, s, r, position, f, env, now);
    }
  }

  lemma HandleCloses(p: Primitives, s: Session, r: Sealed, position: Position, f: Frame, env: Env, now: nat)
    requires HandleFrame(p, s, r, position, f, env, now).1.Ok?
    ensures HandleFrame(p, s, r, position, f, env, now).1.value.close <==> f.frameType == 0x12
  {
    hide SealControl, AcceptUpdateInit, AcceptUpdateCommit, AcceptFullRekeyInit, AcceptFullRekeyConfirm, FrameBytes;
  }

  /** The epoch that both ends derive from one context. */
  function NextPending(p: Primitives, id: Bytes, secret: Digest, epoch: nat, context: Digest): Pending {
    var nextSecret := p.hmac(secret, context);
    Pending(NewEpoch(p, id, epoch + 1, nextSecret), Routine(context, ConfirmationKey(p, nextSecret, id, epoch + 1)))
  }

  /** INIT built over the server's own transcript is accepted and answered with ACK. */
  lemma ServerAcceptsInit(p: Primitives, s: Session, r: Sealed, nonce: Digest, body: Bytes, now: nat)
    requires s.pending.None? && s.current.epoch + 1 < U32_LIMIT
    requires s.current.s2cControl.next < MAX_RECORDS_PER_EPOCH
    requires body == InitBody(s.current.epoch, nonce,
                              p.hmac(s.current.secret,
                                     UpdateInput(s.id, s.current.epoch, s.current.epoch + 1, nonce, s.transcript)))
    ensures var context := p.sha256(UpdateInput(s.id, s.current.epoch, s.current.epoch + 1, nonce, s.transcript));
            var pending := NextPending(p, s.id, s.current.secret, s.current.epoch, context);
            var ack := AckRecord(p, s, s.current.s2cControl.next, pending.proof);
            AcceptUpdateInit(p, s, r, body, now) ==
            (ExpirePrevious(s.(
               transcript := TranscriptNext(p, TranscriptNext(p, s.transcript, r), ack),
               current := s.current.(s2cControl := s.current.s2cControl.(next := s.current.s2cControl.next + 1)),
               pending := Some(pending),
               updateRequested := true,
               updateDeadline := Some(now + UPDATE_TIMEOUT)), now),
             Ok(ack))
  {
    hide UpdateInput, TranscriptNext, LabelledTag, ConfirmationKey, NewEpoch, FrameBytes, InitBody;
    InitBodyParses(s.current.epoch, nonce,
                   p.hmac(s.current.secret, UpdateInput(s.id, s.current.epoch, s.current.epoch + 1, nonce,
                                                        s.transcript)));
    var context := p.sha256(UpdateInput(s.id, s.current.epoch, s.current.epoch + 1, nonce, s.transcript));
    var pending := NextPending(p, s.id, s.current.secret, s.current.epoch, context);
    AckSize(p, s.current.epoch + 1, pending.proof);
  }

  /** The whole of it: INIT sealed under the next number is opened, handled and answered with ACK. */
  lemma ServerTakesInit(p: Primitives, env: Env, s: Session, r: Sealed, nonce: Digest, now: nat)
    requires Safety.Shape(p, s) && |s.id| == 16 && s.pending.None? && s.current.epoch + 1 < U32_LIMIT
    requires s.current.c2sControl.window.Next() < U32_LIMIT && s.current.s2cControl.next < MAX_RECORDS_PER_EPOCH
    requires var tag := p.hmac(s.current.secret,
                               UpdateInput(s.id, s.current.epoch, s.current.epoch + 1, nonce, s.transcript));
             r == SealAs(s.id, Control, s.current.epoch, s.current.c2sControl.key, s.current.c2sControl.window.Next(),
                         FrameBytes(Frame(0x05, 0, InitBody(s.current.epoch, nonce, tag))))
    ensures var window := s.current.c2sControl.window;
            var context := p.sha256(UpdateInput(s.id, s.current.epoch, s.current.epoch + 1, nonce, s.transcript));
            var pending := NextPending(p, s.id, s.current.secret, s.current.epoch, context);
            var ack := AckRecord(p, s, s.current.s2cControl.next, pending.proof);
            ProcessRecord(p, s, r, env, now, now) ==
            (ExpirePrevious(s, now).(
               transcript := TranscriptNext(p, TranscriptNext(p, s.transcript, r), ack),
               current := s.current.(c2sControl := s.current.c2sControl.(window := window.Add(window.Next())),
                                     s2cControl := s.current.s2cControl.(next := s.current.s2cControl.next + 1)),
               pending := Some(pending),
               updateRequested := true,
               updateDeadline := Some(now + UPDATE_TIMEOUT)),
             Ok(Reply([ack], false)))
  {
    hide UpdateInput, TranscriptNext, LabelledTag, FrameBytes, InitBody, Open, ActOn, AcceptUpdateInit, NextPending,
         ServerControl;
    var tag := p.hmac(s.current.secret, UpdateInput(s.id, s.current.epoch, s.current.epoch + 1, nonce, s.transcript));
    var body := InitBody(s.current.epoch, nonce, tag);
    var f := Frame(0x05, 0, body);
    InitSize(s.current.epoch, nonce, tag);
    ServerOpensControl(p, s, r, FrameBytes(f), now);
    var s1 := Open(s, r, now).0;
    OneFrameIsHandled(p, s1, r, Current, f, env, now);
    ServerAcceptsInit(p, s1, r, nonce, body, now);
    SameAck(p, s, s1, NextPending(p, s.id, s.current.secret, s.current.epoch,
                                  p.sha256(UpdateInput(s.id, s.current.epoch, s.current.epoch + 1, nonce,
                                                       s.transcript))).proof);
  }

  lemma SameAck(p: Primitives, s: Session, s1: Session, proof: Proof)
    requires s1.current.epoch == s.current.epoch && s1.current.s2cControl == s.current.s2cControl
    ensures AckRecord(p, s1, s.current.s2cControl.next, proof) == AckRecord(p, s, s.current.s2cControl.next, proof)
  {
    hide LabelledTag, FrameBytes;
  }

  lemma InitSize(epoch: nat, nonce: Digest, tag: Digest)
    ensures |InitBody(epoch, nonce, tag)| == 72 && |FrameBytes(Frame(0x05, 0, InitBody(epoch, nonce, tag)))| == 76
  {
  }

  lemma AckSize(p: Primitives, epoch: nat, proof: Proof)
    ensures |FrameBytes(Frame(0x06, 0, BigEndian(epoch, 4)
                              + LabelledTag(p, proof.confirmKey, ServerAck, proof.context)))| == 40
  {
    hide LabelledTag;
  }

  lemma DoneSize(epoch: nat, tag: Digest)
    ensures |FrameBytes(Frame(0x08, 0, BigEndian(epoch, 4) + tag))| == 40
  {
  }

  /** COMMIT with the right tag is accepted and answered with DONE under the new epoch. */
  lemma ServerAcceptsCommit(p: Primitives, s: Session, r: Sealed, body: Bytes, now: nat)
    requires s.pending.Some? && s.pending.value.proof.Routine?
    requires s.pending.value.state.epoch < U32_LIMIT && s.pending.value.state.s2cControl.next == 0
    requires body == BigEndian(s.pending.value.state.epoch, 4)
                     + LabelledTag(p, s.pending.value.proof.confirmKey, ClientCommit, s.pending.value.proof.context)
    ensures var state := s.pending.value.state;
            var proof := s.pending.value.proof;
            var done := DoneRecord(p, s.(current := state), 0, proof.confirmKey, proof.context);
            AcceptUpdateCommit(p, s, r, body, now) ==
            (s.(
               transcript := TranscriptNext(p, TranscriptNext(p, s.transcript, r), done),
               current := state.(s2cControl := state.s2cControl.(next := 1)),
               pending := None,
               previous := Some(Previous(s.current, now + OLD_EPOCH_GRACE, OLD_EPOCH_RECORDS)),
               epochStarted := now, dataRecords := 0, plaintextBytes := 0,
               updateRequested := false, updateDeadline := None),
             Ok(done))
  {
    hide TranscriptNext, LabelledTag, FrameBytes;
    var proof := s.pending.value.proof;
    EpochTagBody(s.pending.value.state.epoch, LabelledTag(p, proof.confirmKey, ClientCommit, proof.context));
    DoneSize(s.pending.value.state.epoch, LabelledTag(p, proof.confirmKey, ServerDone, proof.context));
  }

  // ---- The client takes a record ----

  lemma ClientTakesData(p: Primitives, c: Client, r: Sealed, nonce: Digest, now: nat)
    requires c.dataWindow.Valid() && c.dataWindow.Next() < U32_LIMIT
    requires IsData(r, c.id, c.epoch, c.keys.s2cData, c.dataWindow.Next())
    ensures var (c1, result) := Receive(p, c, r, nonce, now);
            && c1 == c.(dataWindow := c.dataWindow.Add(c.dataWindow.Next()))
            && result.Ok? && result.value.reply == None
  {
    NextIsTaken(c.dataWindow, c.dataWindow.Next());
  }

  /** Opening a control record that carries the next number at the client's epoch. */
  lemma ClientOpensControl(c: Client, r: Sealed, plaintext: Bytes)
    requires c.controlWindow.Valid() && c.controlWindow.Next() < U32_LIMIT
    requires r == SealAs(c.id, Control, c.epoch, c.keys.s2cControl, c.controlWindow.Next(), plaintext)
    ensures OpenRecord(c, r) == (c.(controlWindow := c.controlWindow.Add(c.controlWindow.Next())),
                                 Ok((plaintext, Current)))
  {
    NextIsTaken(c.controlWindow, c.controlWindow.Next());
  }

  lemma ClientActsOnOneFrame(p: Primitives, c: Client, r: Sealed, c1: Client, position: Position, f: Frame,
                             nonce: Digest, now: nat)
    requires |f.body| < U16_LIMIT && f.flags == 0 && Known(Control, f.frameType)
    requires r.header.kind == Control && OpenRecord(c, r) == (c1, Ok((FrameBytes(f), position)))
    ensures var (c2, outcome) := Dispatch(p, c1, r, position, f, nonce, now);
            Receive(p, c, r, nonce, now) == (c2, if outcome.Ok? then Ok(Received([], outcome.value))
                                             else Err(outcome.error))
  {
    hide Dispatch, OpenRecord, ClientFrames, FrameBytes;
    SingleFrameParses(f, Control);
  }

  /** REQUEST for the client's epoch is answered with INIT over the transcript that now includes it. */
  lemma ClientAcceptsRequest(p: Primitives, c: Client, r: Sealed, body: Bytes, nonce: Digest, now: nat)
    requires c.pending.None? && c.epoch + 1 < U32_LIMIT && c.controlNumber < U32_LIMIT
    requires body == BigEndian(c.epoch, 4)
    ensures var noted := TranscriptNext(p, c.transcript, r);
            var init := InitRecord(p, c, c.controlNumber, nonce, noted);
            var context := p.sha256(UpdateInput(c.id, c.epoch, c.epoch + 1, nonce, noted));
            AcceptUpdateRequest(p, c, r, body, nonce, now) ==
            (c.(transcript := TranscriptNext(p, noted, init),
                controlNumber := c.controlNumber + 1,
                pending := Some(PendingRekey(c.epoch + 1, context, now, None))),
             Ok(init))
  {
    hide TranscriptNext, UpdateInput;
    IntegersDecode(c.epoch);
  }

  /** ACK made from the same context is answered with COMMIT, and the client holds the next keys. */
  lemma ClientAcceptsAck(p: Primitives, c: Client, r: Sealed, body: Bytes)
    requires c.pending.Some? && c.pending.value.epoch < U32_LIMIT
    requires body == BigEndian(c.pending.value.epoch, 4)
                     + LabelledTag(p, DeriveNext(p, c, c.pending.value).confirmKey, ServerAck, c.pending.value.context)
    ensures var next := DeriveNext(p, c, c.pending.value);
            var pending := c.pending.value.(next := Some(next));
            var commit := PendingCommit(p, c.(pending := Some(pending)));
            AcceptUpdateAck(p, c, r, body) ==
            (c.(transcript := TranscriptNext(p, TranscriptNext(p, c.transcript, r), commit), pending := Some(pending)),
             Ok(commit))
  {
    hide TranscriptNext, LabelledTag, DeriveNext;
    EpochTagBody(c.pending.value.epoch, LabelledTag(p, DeriveNext(p, c, c.pending.value).confirmKey, ServerAck,
                                                    c.pending.value.context));
  }

  /** DONE is the first record of the new epoch; taking it moves the client there. */
  lemma ClientTakesDone(p: Primitives, c: Client, r: Sealed, nonce: Digest, now: nat)
    requires AwaitsDone(c) && c.pending.value.epoch == c.epoch + 1 < U32_LIMIT
    requires c.pending.value.next.value.controlWindow == Empty(DEFAULT_REPLAY_WINDOW)
    requires var next := c.pending.value.next.value;
             r == SealAs(c.id, Control, c.pending.value.epoch, next.keys.s2cControl, 0,
                         FrameBytes(Frame(0x08, 0, BigEndian(c.pending.value.epoch, 4)
                                                   + LabelledTag(p, next.confirmKey, ServerDone,
                                                     c.pending.value.context))))
    ensures var next := c.pending.value.next.value;
            Receive(p, c, r, nonce, now) ==
            (c.(transcript := TranscriptNext(p, c.transcript, r),
                keys := next.keys, secret := next.secret, epoch := c.pending.value.epoch,
                dataNumber := 0, controlNumber := 1,
                dataWindow := next.dataWindow, controlWindow := next.controlWindow.Add(0), pending := None),
             Ok(Received([], None)))
  {
    hide TranscriptNext, LabelledTag, FrameBytes, ClientFrames;
    var pending := c.pending.value;
    var next := pending.next.value;
    var tag := LabelledTag(p, next.confirmKey, ServerDone, pending.context);
    EpochTagBody(pending.epoch, tag);
    var c1 := c.(pending := Some(pending.(next := Some(next.(controlWindow := next.controlWindow.Add(0))))));
    assert next.controlWindow.Valid();
    NextIsTaken(next.controlWindow, 0);
    var f := Frame(0x08, 0, BigEndian(pending.epoch, 4) + tag);
    assert OpenRecord(c, r) == (c1, Ok((FrameBytes(f), Pending_)));
    ClientActsOnOneFrame(p, c, r, c1, Pending_, f, nonce, now);
  }

  // ---- Migration in the middle of an update ----

  function InitTag(p: Primitives, s: Session, nonce: Digest, transcript: Digest): Digest {
    p.hmac(s.current.secret, UpdateInput(s.id, s.current.epoch, s.current.epoch + 1, nonce, transcript))
  }

  /** `path_challenge` is refused only while an epoch is pending. Sent between REQUEST and INIT it is not
      refused, and the INIT that the server would have accepted is then accepted exactly when its tag
      happens to be the tag over the moved transcript. */
  lemma ChallengeInvalidatesInit(p: Primitives, s: Session, r: Sealed, nonce: Digest, now: nat,
                                 migrationSecret: Bytes, carrierId: Bytes, challenge: Bytes)
    requires s.pending.None? && s.updateRequested && s.current.epoch + 1 < U32_LIMIT
    requires s.current.s2cControl.next + 1 < MAX_RECORDS_PER_EPOCH
    requires |carrierId| == 16 && |challenge| == 32
    ensures var (s1, sent) := PathChallenge(p, s, migrationSecret, carrierId, challenge);
            var body := InitBody(s.current.epoch, nonce, InitTag(p, s, nonce, s.transcript));
            && sent.Ok?
            && AcceptUpdateInit(p, s, r, body, now).1.Ok?
            && (AcceptUpdateInit(p, s1, r, body, now).1.Ok?
                <==> InitTag(p, s, nonce, s1.transcript) == InitTag(p, s, nonce, s.transcript))
  {
    hide UpdateInput, TranscriptNext, LabelledTag, ConfirmationKey, NewEpoch, InitBody;
    var tag := InitTag(p, s, nonce, s.transcript);
    var body := InitBody(s.current.epoch, nonce, tag);
    assert |FrameBytes(Frame(0x0C, 0, carrierId + challenge))| == 52;
    InitBodyParses(s.current.epoch, nonce, tag);
    ServerAcceptsInit(p, s, r, nonce, body, now);
    var s1 := PathChallenge(p, s, migrationSecret, carrierId, challenge).0;
    if InitTag(p, s, nonce, s1.transcript) == tag {
      ServerAcceptsInit(p, s1, r, nonce, body, now);
    }
  }

  /** What the caller can see to beforehand: a challenge sent while no update is requested disturbs none.
      Whatever polls follow it, the INIT over the server's transcript is accepted. */
  lemma ChallengeBeforeRequestIsHarmless(p: Primitives, s: Session, r: Sealed, nonce: Digest, polled: nat, now: nat,
                                         migrationSecret: Bytes, carrierId: Bytes, challenge: Bytes)
    requires s.pending.None? && !s.updateRequested && s.updateDeadline.None? && s.current.epoch + 1 < U32_LIMIT
    requires s.current.s2cControl.next + 2 < MAX_RECORDS_PER_EPOCH
    requires |carrierId| == 16 && |challenge| == 32
    ensures var (s1, sent) := PathChallenge(p, s, migrationSecret, carrierId, challenge);
            var (s2, polling) := RequestUpdateIfDue(p, s1, polled);
            var body := InitBody(s.current.epoch, nonce, InitTag(p, s2, nonce, s2.transcript));
            && sent.Ok? && polling.Ok?
            && (polling.value.Some? <==> s2.updateRequested)
            && AcceptUpdateInit(p, s2, r, body, now).1.Ok?
  {
    hide UpdateInput, TranscriptNext, LabelledTag, ConfirmationKey, NewEpoch, InitBody, BigEndian;
    assert |FrameBytes(Frame(0x0C, 0, carrierId + challenge))| == 52;
    var s1 := PathChallenge(p, s, migrationSecret, carrierId, challenge).0;
    assert |FrameBytes(Frame(0x04, 0, BigEndian(s.current.epoch, 4)))| == 8;
    var s2 := RequestUpdateIfDue(p, s1, polled).0;
    var tag := InitTag(p, s2, nonce, s2.transcript);
    InitBodyParses(s.current.epoch, nonce, tag);
    ServerAcceptsInit(p, s2, r, nonce, InitBody(s.current.epoch, nonce, tag), now);
  }

  // ---- A run in which it does break ----

  /** A tag function that shows what it covers: the last 32 bytes of its input. */
  function Tail(b: Bytes): Digest {
    if |b| >= 32 then b[|b| - 32..] else Filled(0, 32)
  }

  function Filled(b: byte, size: nat): (r: Bytes)
    ensures |r| == size
  {
    seq(size, _ => b)
  }

  function OneMore(b: byte): byte {
    var n: int := b;
    (n + 1) % 256
  }

  /** A hash that counts: its bytes are one more than the first byte of the input. */
  function Counting(b: Bytes): Digest {
    Filled(if b == [] then 0 else OneMore(b[0]), 32)
  }

  function RevealingPrimitives(): Primitives {
    Primitives(b => Counting(b), (k, b) => Tail(b), (k, name, b) => Filled(0, 32), (k, n, h, b) => [],
               (k, d, b) => true, (k, d) => [], b => Filled(0, 32), (a, b) => Filled(0, 32))
  }

  function Started(): Session {
    New(RevealingPrimitives(), Filled(0, 16), Filled(0, 32), Filled(0, 32), 0)
  }

  /** A session of ten minutes whose first poll sent REQUEST. */
  function AfterRequest(): Session {
    RequestUpdateIfDue(RevealingPrimitives(), Started(), UPDATE_INTERVAL).0
  }

  lemma HashCounts(transcript: Digest, r: Sealed)
    ensures TranscriptNext(RevealingPrimitives(), transcript, r) == Filled(OneMore(transcript[0]), 32)
  {
    hide RecordBytes;
    var input := transcript + RecordBytes(RevealingPrimitives(), r);
    assert input[0] == transcript[0];
  }

  lemma NewSender(p: Primitives, id: Bytes, secret: Digest)
    ensures var e := NewEpoch(p, id, 0, secret); e.s2cControl.next == 0 && e.epoch == 0 && e.secret == secret
  {
  }

  /** Where the run stands after REQUEST. */
  lemma RequestIsSent()
    ensures var s := AfterRequest();
            && s.updateRequested && s.pending.None? && s.current.epoch == 0 && s.current.s2cControl.next == 1
    ensures Safety.Run(RevealingPrimitives(), Started(), [Safety.CallRequestUpdate(UPDATE_INTERVAL)]).0
            == AfterRequest()
  {
    hide NewEpoch, TranscriptNext, Filled, FrameBytes, Ascii, Counting;
    var p, s := RevealingPrimitives(), Started();
    NewSender(p, Filled(0, 16), Filled(0, 32));
    FrameSize(BigEndian(0, 4));
    var calls := [Safety.CallRequestUpdate(UPDATE_INTERVAL)];
    assert calls[..0] == [] && Safety.Run(p, s, []) == (s, []);
    var sealed := SealControl(s, FrameBytes(Frame(0x04, 0, BigEndian(0, 4))), false).1.value;
    HashCounts(s.transcript, sealed);
    FilledAt(OneMore(s.transcript[0]));
  }

  lemma FrameSize(body: Bytes)
    ensures forall t: byte :: |FrameBytes(Frame(t, 0, body))| == 4 + |body|
  {
  }

  lemma FilledAt(b: byte)
    ensures Filled(b, 32)[0] == b
  {
  }

  lemma TailOfInput(p: Primitives, s: Session, nonce: Digest, transcript: Digest)
    ensures Tail(UpdateInput(s.id, s.current.epoch, s.current.epoch + 1, nonce, transcript)) == transcript
  {
  }

  /** In that reachable state a challenge does break the update: the INIT the server would have taken is
      refused once the challenge was sent. */
  lemma ChallengeBreaksAnUpdate(r: Sealed, nonce: Digest, carrierId: Bytes, challenge: Bytes, now: nat)
    requires |carrierId| == 16 && |challenge| == 32
    ensures var p := RevealingPrimitives();
            var s := Safety.Run(p, New(p, Filled(0, 16), Filled(0, 32), Filled(0, 32), 0),
                                [Safety.CallRequestUpdate(UPDATE_INTERVAL)]).0;
            var body := InitBody(s.current.epoch, nonce, InitTag(p, s, nonce, s.transcript));
            && s.updateRequested
            && PathChallenge(p, s, [], carrierId, challenge).1.Ok?
            && AcceptUpdateInit(p, s, r, body, now).1.Ok?
            && !AcceptUpdateInit(p, PathChallenge(p, s, [], carrierId, challenge).0, r, body, now).1.Ok?
  {
    hide AcceptUpdateInit, UpdateInput, InitBody, NewEpoch, TranscriptNext, Filled, FrameBytes, AfterRequest, Tail,
         Safety.Run, Ascii, Counting;
    var p, s := RevealingPrimitives(), AfterRequest();
    RequestIsSent();
    ChallengeInvalidatesInit(p, s, r, nonce, now, [], carrierId, challenge);
    FrameSize(carrierId + challenge);
    var s1 := PathChallenge(p, s, [], carrierId, challenge).0;
    var sealed := SealControl(s, FrameBytes(Frame(0x0C, 0, carrierId + challenge)), false).1.value;
    HashCounts(s.transcript, sealed);
    FilledAt(OneMore(s.transcript[0]));
    TailOfInput(p, s, nonce, s.transcript);
    TailOfInput(p, s, nonce, s1.transcript);
    assert s1.transcript[0] != s.transcript[0];
  }
}
