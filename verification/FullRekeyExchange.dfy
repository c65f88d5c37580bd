/** The full rekey between the server and the initiator that the probe implements: signed ephemerals, one
    answer, a confirmation under the new epoch. */
module FullRekeyExchange {
  import opened Prelude
  import opened Record
  import opened ReplayWindow
  import opened Rekey
  import opened ClientCore
  import opened ServerRecords
  import opened RekeyExchange
  import opened RekeyJoint
  import Safety = RekeySafety

  // ---- The initiator ----

  /** The probe before a full rekey: where its session stands, and its random values. */
  datatype Initiator = Initiator(
    id: Bytes,
    epoch: nat,
    secret: Digest,
    transcript: Digest,
    sendNumber: nat,
    receiveNumber: nat,
    rekeyId: Bytes,
    ephemeral: Bytes,
    signing: Bytes
  )

  /** What the answer gives it: the next secret, the confirmation and the transcript behind it. */
  datatype Finished = Finished(secret: Digest, context: Digest, confirmKey: Digest, confirm: Sealed, transcript: Digest)

  function Epochs(epoch: nat): (b: Bytes)
    ensures |b| == 8
  {
    BigEndian(epoch, 4) + BigEndian(epoch + 1, 4)
  }

  function Covered(p: Primitives, stage: Stage, c: Initiator, middle: Bytes, transcript: Digest): Digest {
    p.sha256(Ascii(StageName(stage)) + c.id + Epochs(c.epoch) + c.rekeyId + p.publicKey(c.ephemeral) + middle
             + transcript)
  }

  function ClientSignature(p: Primitives, c: Initiator): Bytes {
    p.sign(c.signing, Covered(p, ClientSigned, c, [], c.transcript))
  }

  function FullInitBody(p: Primitives, c: Initiator): Bytes {
    Epochs(c.epoch) + c.rekeyId + p.publicKey(c.ephemeral) + ClientSignature(p, c)
  }

  function FullInit(p: Primitives, c: Initiator): Sealed {
    SealAs(c.id, Control, c.epoch, TrafficKey(p, c.secret, c.id, c.epoch, Control, C2S), c.sendNumber,
           FrameBytes(Frame(0x09, 0, FullInitBody(p, c))))
  }

  function ConfirmRecord(p: Primitives, c: Initiator, secret: Digest, confirmKey: Digest, context: Digest): Sealed {
    SealAs(c.id, Control, c.epoch + 1, TrafficKey(p, secret, c.id, c.epoch + 1, Control, C2S), 0,
           FrameBytes(Frame(0x0B, 0, BigEndian(c.epoch + 1, 4) + LabelledTag(p, confirmKey, ClientConfirm, context))))
  }

  /** Checks the server's answer and builds the confirmation; nothing for any of its exceptions. */
  function TakeReply(p: Primitives, c: Initiator, reply: Sealed, serverKey: Bytes): Option<Finished> {
    var noted := TranscriptNext(p, c.transcript, FullInit(p, c));
    var plaintext := reply.plaintext;
    if reply != SealAs(c.id, Control, c.epoch, TrafficKey(p, c.secret, c.id, c.epoch, Control, S2C), c.receiveNumber,
                       plaintext)
    then None
    else if |plaintext| != 124 || plaintext[..4] != [0x0A, 0, 0, 120] then None
    else
      var body := plaintext[4..];
      if body[0..8] != Epochs(c.epoch) || body[8..24] != c.rekeyId then None
      else if !p.verify(serverKey, Covered(p, ServerSigned, c, body[24..56], noted), body[56..120]) then None
      else
        var shared := p.diffieHellman(c.ephemeral, body[24..56]);
        if shared == ALL_ZERO then None
        else
          var answered := TranscriptNext(p, noted, reply);
          var context := Covered(p, KeyContext, c, body[24..56] + ClientSignature(p, c) + body[56..120], answered);
          var secret := p.hmac(c.secret, shared + context);
          var confirmKey := p.expand(secret, "full rekey confirm", context);
          var confirm := ConfirmRecord(p, c, secret, confirmKey, context);
          Some(Finished(secret, context, confirmKey, confirm, TranscriptNext(p, answered, confirm)))
  }

  /** The transcript after the server's DONE, if it is the one expected. */
  function TakeDone(p: Primitives, c: Initiator, f: Finished, done: Sealed): Option<Digest> {
    var expected := FrameBytes(Frame(0x08, 0,
                                     BigEndian(c.epoch + 1, 4) + LabelledTag(p, f.confirmKey, ServerDone, f.context)));
    if done == SealAs(c.id, Control, c.epoch + 1, TrafficKey(p, f.secret, c.id, c.epoch + 1, Control, S2C), 0, expected)
    then Some(TranscriptNext(p, f.transcript, done))
    else None
  }

  // ---- What is needed of the primitives ----

  ghost predicate SecretsMeet(p: Primitives) {
    forall a: Bytes, b: Bytes :: p.diffieHellman(a, p.publicKey(b)) == p.diffieHellman(b, p.publicKey(a))
  }

  ghost predicate Verifies(p: Primitives, public: Bytes, secret: Bytes) {
    forall m: Digest :: p.verify(public, m, p.sign(secret, m)) && |p.sign(secret, m)| == 64
  }

  /** Both ends stand at the same point of the session. */
  predicate InStep(c: Initiator, s: Session) {
    && c.id == s.id && |s.id| == 16 && |c.rekeyId| == 16
    && c.epoch == s.current.epoch && c.epoch + 1 < U32_LIMIT
    && c.secret == s.current.secret && c.transcript == s.transcript
    && c.sendNumber == s.current.c2sControl.window.Next() < U32_LIMIT
    && c.receiveNumber == s.current.s2cControl.next < MAX_RECORDS_PER_EPOCH
  }

  // ---- The server's side of it ----

  lemma InitFields(p: Primitives, c: Initiator)
    requires |c.rekeyId| == 16 && |ClientSignature(p, c)| == 64 && c.epoch + 1 < U32_LIMIT
    ensures var body := FullInitBody(p, c);
            && |body| == 120
            && body[0..8] == Epochs(c.epoch) && body[8..24] == c.rekeyId
            && body[24..56] == p.publicKey(c.ephemeral) && body[56..120] == ClientSignature(p, c)
            && FromBigEndian(body[0..4]) == c.epoch && FromBigEndian(body[4..8]) == c.epoch + 1
            && body[0..24] == Epochs(c.epoch) + c.rekeyId
  {
    hide BigEndian, FromBigEndian, ClientSignature;
    var body := FullInitBody(p, c);
    IntegersDecode(c.epoch);
    IntegersDecode(c.epoch + 1);
    assert body[0..4] == BigEndian(c.epoch, 4) && body[4..8] == BigEndian(c.epoch + 1, 4);
  }

  /** Both ends hash the same bytes. */
  lemma SameCover(p: Primitives, stage: Stage, c: Initiator, body: Bytes, part: Bytes, transcript: Digest)
    requires |body| == 120 && body[0..8] == Epochs(c.epoch) && body[8..24] == c.rekeyId
             && body[24..56] == p.publicKey(c.ephemeral)
    ensures FullRekeyContext(p, stage, c.id, body, part, transcript) == Covered(p, stage, c, part, transcript)
  {
    hide Ascii, StageName;
  }

  /** The body of the server's answer. */
  function ReplyBody(p: Primitives, c: Initiator, serverPublic: Bytes, signature: Bytes): Bytes {
    Epochs(c.epoch) + c.rekeyId + serverPublic + signature
  }

  lemma ReplyFields(p: Primitives, c: Initiator, serverPublic: Digest, signature: Bytes)
    requires |c.rekeyId| == 16 && |signature| == 64
    ensures var plaintext := FrameBytes(Frame(0x0A, 0, ReplyBody(p, c, serverPublic, signature)));
            && |plaintext| == 124 && plaintext[..4] == [0x0A, 0, 0, 120]
            && var body := plaintext[4..];
               && body[0..8] == Epochs(c.epoch) && body[8..24] == c.rekeyId
               && body[24..56] == serverPublic && body[56..120] == signature
  {
    hide Epochs;
    assert BigEndian(120, 2) == [0, 120] by { assert BigEndian(0, 1) == BigEndian(0, 0) + [0]; }
  }

  /** The server's answer to a body it can verify, as the initiator will see it. */
  lemma ServerAnswers(p: Primitives, s: Session, c: Initiator, noted: Session, env: Env, serverKey: Bytes, now: nat)
    requires Safety.Shape(p, s) && s.pending.None? && noted == s.(transcript := noted.transcript)
    requires c.id == s.id && c.epoch == s.current.epoch && c.epoch + 1 < U32_LIMIT && c.secret == s.current.secret
    requires c.receiveNumber == s.current.s2cControl.next < MAX_RECORDS_PER_EPOCH && |c.rekeyId| == 16
    requires |ClientSignature(p, c)| == 64 && Verifies(p, serverKey, env.serverKey)
    ensures var serverPublic := p.publicKey(env.ephemeral);
            var signature := p.sign(env.serverKey, Covered(p, ServerSigned, c, serverPublic, noted.transcript));
            var reply := SealAs(c.id, Control, c.epoch, TrafficKey(p, c.secret, c.id, c.epoch, Control, S2C),
                                c.receiveNumber, FrameBytes(Frame(0x0A, 0, ReplyBody(p, c, serverPublic, signature))));
            var answered := TranscriptNext(p, noted.transcript, reply);
            var shared := p.diffieHellman(env.ephemeral, p.publicKey(c.ephemeral));
            var context := Covered(p, KeyContext, c, serverPublic + ClientSignature(p, c) + signature, answered);
            var secret := p.hmac(c.secret, shared + context);
            var sent := noted.(
              transcript := answered,
              current := s.current.(s2cControl := s.current.s2cControl.(next := s.current.s2cControl.next + 1)));
            AnswerFullRekeyInit(p, noted, FullInitBody(p, c), env.serverKey, env.ephemeral, now) ==
              if shared == ALL_ZERO then (sent, Err(AllZeroSecret))
              else
                (sent.(pending := Some(Pending(NewEpoch(p, c.id, c.epoch + 1, secret),
                                               Full(context, p.expand(secret, "full rekey confirm", context)))),
                       updateRequested := true,
                       updateDeadline := Some(now + UPDATE_TIMEOUT)),
                 Ok(reply))
  {
    hide TranscriptNext, Ascii, StageName, NewEpoch, FrameBytes, Covered, FullRekeyContext, FullInitBody,
         ClientSignature, TrafficKey, Epochs;
    var body := FullInitBody(p, c);
    InitFields(p, c);
    var serverPublic := p.publicKey(env.ephemeral);
    SameCover(p, ServerSigned, c, body, serverPublic, noted.transcript);
    var signature := p.sign(env.serverKey, Covered(p, ServerSigned, c, serverPublic, noted.transcript));
    ReplyFields(p, c, serverPublic, signature);
    assert body[0..24] + serverPublic + signature == ReplyBody(p, c, serverPublic, signature);
    var reply := SealAs(c.id, Control, c.epoch, TrafficKey(p, c.secret, c.id, c.epoch, Control, S2C), c.receiveNumber,
                        FrameBytes(Frame(0x0A, 0, ReplyBody(p, c, serverPublic, signature))));
    var answered := TranscriptNext(p, noted.transcript, reply);
    SameCover(p, KeyContext, c, body, serverPublic + ClientSignature(p, c) + signature, answered);
  }

  /** The initiator takes that answer. */
  lemma ReplyIsTaken(p: Primitives, c: Initiator, env: Env, serverKey: Bytes, reply: Sealed)
    requires |c.rekeyId| == 16 && Verifies(p, serverKey, env.serverKey) && SecretsMeet(p)
    requires p.diffieHellman(env.ephemeral, p.publicKey(c.ephemeral)) != ALL_ZERO
    requires var noted := TranscriptNext(p, c.transcript, FullInit(p, c));
             var serverPublic := p.publicKey(env.ephemeral);
             reply == SealAs(c.id, Control, c.epoch, TrafficKey(p, c.secret, c.id, c.epoch, Control, S2C),
                             c.receiveNumber, FrameBytes(Frame(0x0A, 0, ReplyBody(p, c, serverPublic,
                               p.sign(env.serverKey, Covered(p, ServerSigned, c, serverPublic, noted))))))
    ensures var noted := TranscriptNext(p, c.transcript, FullInit(p, c));
            var serverPublic := p.publicKey(env.ephemeral);
            var signature := p.sign(env.serverKey, Covered(p, ServerSigned, c, serverPublic, noted));
            var answered := TranscriptNext(p, noted, reply);
            var context := Covered(p, KeyContext, c, serverPublic + ClientSignature(p, c) + signature, answered);
            var secret := p.hmac(c.secret, p.diffieHellman(env.ephemeral, p.publicKey(c.ephemeral)) + context);
            var confirmKey := p.expand(secret, "full rekey confirm", context);
            var confirm := ConfirmRecord(p, c, secret, confirmKey, context);
            TakeReply(p, c, reply, serverKey) ==
              Some(Finished(secret, context, confirmKey, confirm, TranscriptNext(p, answered, confirm)))
  {
    hide TranscriptNext, FullInit, FrameBytes, Covered, ClientSignature, TrafficKey, Epochs, ConfirmRecord, ReplyBody;
    var noted := TranscriptNext(p, c.transcript, FullInit(p, c));
    var serverPublic := p.publicKey(env.ephemeral);
    var signature := p.sign(env.serverKey, Covered(p, ServerSigned, c, serverPublic, noted));
    ReplyFields(p, c, serverPublic, signature);
    assert p.diffieHellman(c.ephemeral, serverPublic) == p.diffieHellman(env.ephemeral, p.publicKey(c.ephemeral));
  }

  lemma ServerAcceptsSignature(p: Primitives, s: Session, c: Initiator, r: Sealed, env: Env, now: nat)
    requires s.pending.None? && Verifies(p, env.clientKey, c.signing)
    requires c.id == s.id && |c.rekeyId| == 16 && c.epoch == s.current.epoch && c.epoch + 1 < U32_LIMIT
             && c.transcript == s.transcript
    ensures AcceptFullRekeyInit(p, s, r, FullInitBody(p, c), env.clientKey, env.serverKey, env.ephemeral, now)
         == AnswerFullRekeyInit(p, s.(transcript := TranscriptNext(p, s.transcript, r)), FullInitBody(p, c),
                                env.serverKey, env.ephemeral, now)
  {
    hide TranscriptNext, AnswerFullRekeyInit, FullRekeyContext, Covered, FullInitBody;
    assert |ClientSignature(p, c)| == 64 by { SignatureSize(p, c, env.clientKey); }
    InitFields(p, c);
    SameCover(p, ClientSigned, c, FullInitBody(p, c), [], s.transcript);
  }

  /** INIT reaches its handler, with the window one number further. */
  lemma InitIsHandled(p: Primitives, s: Session, c: Initiator, env: Env, now: nat)
    requires Safety.Shape(p, s) && s.pending.None? && InStep(c, s) && Verifies(p, env.clientKey, c.signing)
    ensures var r := FullInit(p, c);
            var window := s.current.c2sControl.window;
            var s1 := ExpirePrevious(s, now).(current :=
                                              s.current.(c2sControl :=
                                                         s.current.c2sControl.(window := window.Add(window.Next()))));
            && Safety.Shape(p, s1)
            && ProcessRecord(p, s, r, env, now, now) ==
               Answer(AnswerFullRekeyInit(p, s1.(transcript := TranscriptNext(p, c.transcript, r)), FullInitBody(p, c),
                                          env.serverKey, env.ephemeral, now))
  {
    hide TranscriptNext, AnswerFullRekeyInit, AcceptFullRekeyInit, FullInitBody, FrameBytes, TrafficKey, Frames,
         ActOn, Open;
    var r := FullInit(p, c);
    var f := Frame(0x09, 0, FullInitBody(p, c));
    assert |ClientSignature(p, c)| == 64 by { SignatureSize(p, c, env.clientKey); }
    InitFields(p, c);
    assert |FrameBytes(f)| == 124 by { FrameLength(f); }
    ServerOpensControl(p, s, r, FrameBytes(f), now);
    var s1 := Open(s, r, now).0;
    NextIsTaken(s.current.c2sControl.window, s.current.c2sControl.window.Next());
    OneFrameIsHandled(p, s1, r, Current, f, env, now);
    ServerAcceptsSignature(p, s1, c, r, env, now);
  }

  lemma FrameLength(f: Frame)
    ensures |FrameBytes(f)| == 4 + |f.body|
  {
  }

  /** CONFIRM with the right tag is accepted and answered with DONE under the new epoch. */
  lemma ServerAcceptsConfirm(p: Primitives, s: Session, r: Sealed, body: Bytes, now: nat)
    requires s.pending.Some? && s.pending.value.proof.Full?
    requires s.pending.value.state.epoch < U32_LIMIT && s.pending.value.state.s2cControl.next == 0
    requires body == BigEndian(s.pending.value.state.epoch, 4)
                     + LabelledTag(p, s.pending.value.proof.confirmKey, ClientConfirm, s.pending.value.proof.context)
    ensures var state := s.pending.value.state;
            var proof := s.pending.value.proof;
            var done := DoneRecord(p, s.(current := state), 0, proof.confirmKey, proof.context);
            AcceptFullRekeyConfirm(p, s, r, body, now) ==
            (s.(
               transcript := TranscriptNext(p, TranscriptNext(p, s.transcript, r), done),
               current := state.(s2cControl := state.s2cControl.(next := 1)),
               pending := None,
               previous := Some(Previous(s.current, now + OLD_EPOCH_GRACE, OLD_EPOCH_RECORDS)),
               epochStarted := now, dataRecords := 0, plaintextBytes := 0,
               updateRequested := false, updateDeadline := None),
             Ok(done))
  {
    hide TranscriptNext, LabelledTag, FrameBytes;
    var proof := s.pending.value.proof;
    EpochTagBody(s.pending.value.state.epoch, LabelledTag(p, proof.confirmKey, ClientConfirm, proof.context));
    DoneSize(s.pending.value.state.epoch, LabelledTag(p, proof.confirmKey, ServerDone, proof.context));
  }

  /** The server's state between its answer and the confirmation. */
  ghost predicate AwaitsConfirm(p: Primitives, s: Session, c: Initiator, f: Finished, answered: Digest) {
    && Safety.Shape(p, s) && s.id == c.id && |s.id| == 16 && s.current.epoch == c.epoch && s.current.secret == c.secret
    && s.pending == Some(Pending(NewEpoch(p, c.id, c.epoch + 1, f.secret), Full(f.context, f.confirmKey)))
    && c.epoch + 1 < U32_LIMIT
    && s.transcript == answered
    && f.confirm == ConfirmRecord(p, c, f.secret, f.confirmKey, f.context)
    && f.transcript == TranscriptNext(p, answered, f.confirm)
  }

  lemma ConfirmCompletes(p: Primitives, s: Session, c: Initiator, f: Finished, answered: Digest, env: Env, now: nat)
    requires AwaitsConfirm(p, s, c, f, answered)
    ensures var (s1, r) := ProcessRecord(p, s, f.confirm, env, now, now);
            && r.Ok? && |r.value.records| == 1
            && TakeDone(p, c, f, r.value.records[0]) == Some(s1.transcript)
            && s1.current.epoch == c.epoch + 1 && s1.current.secret == f.secret && s1.pending == None
            && s1.previous.Some? && s1.previous.value.state.secret == c.secret
  {
    hide TranscriptNext, LabelledTag, TrafficKey, FrameBytes, Frames, ActOn, Open;
    var pending := s.pending.value;
    var tag := LabelledTag(p, f.confirmKey, ClientConfirm, f.context);
    var frame := Frame(0x0B, 0, BigEndian(c.epoch + 1, 4) + tag);
    FrameLength(frame);
    ServerOpensPending(p, s, f.confirm, FrameBytes(frame), now);
    var s1 := Open(s, f.confirm, now).0;
    OneFrameIsHandled(p, s1, f.confirm, Pending_, frame, env, now);
    ServerAcceptsConfirm(p, s1, f.confirm, frame.body, now);
  }

  /** A full rekey between two ends in step, with no other control record in between: the server answers INIT
      exactly when the shared secret is not all zero; then the initiator takes the answer, the server takes
      the confirmation, the initiator takes DONE, and both have the same new epoch, secret and transcript. */
  lemma FullRekeyCompletes(p: Primitives, s: Session, c: Initiator, env: Env, serverKey: Bytes, now: nat, later: nat)
    requires Safety.Shape(p, s) && s.pending.None? && InStep(c, s)
    requires Verifies(p, env.clientKey, c.signing) && Verifies(p, serverKey, env.serverKey) && SecretsMeet(p)
    ensures var (s1, r1) := ProcessRecord(p, s, FullInit(p, c), env, now, now);
            && (r1.Ok? <==> p.diffieHellman(env.ephemeral, p.publicKey(c.ephemeral)) != ALL_ZERO)
            && (r1.Ok? ==>
                  && |r1.value.records| == 1 && TakeReply(p, c, r1.value.records[0], serverKey).Some?
                  && var f := TakeReply(p, c, r1.value.records[0], serverKey).value;
                     var (s2, r2) := ProcessRecord(p, s1, f.confirm, env, later, later);
                     && r2.Ok? && |r2.value.records| == 1
                     && TakeDone(p, c, f, r2.value.records[0]) == Some(s2.transcript)
                     && s2.current.epoch == c.epoch + 1 && s2.current.secret == f.secret && s2.pending == None
                     && s2.previous.Some? && s2.previous.value.state.secret == c.secret)
  {
    hide TranscriptNext, LabelledTag, TrafficKey, FrameBytes, Covered, ClientSignature, Epochs, ConfirmRecord,
         ReplyBody, FullInit,
         FullInitBody, ProcessRecord, AnswerFullRekeyInit, TakeReply, TakeDone, NewEpoch, Safety.Shape;
    FullAnswerAwaits(p, s, c, env, serverKey, now);
    if p.diffieHellman(env.ephemeral, p.publicKey(c.ephemeral)) != ALL_ZERO {
      var (s1, r1) := ProcessRecord(p, s, FullInit(p, c), env, now, now);
      var f := TakeReply(p, c, r1.value.records[0], serverKey).value;
      ConfirmCompletes(p, s1, c, f, s1.transcript, env, later);
    }
  }

  lemma FullAnswerAwaits(p: Primitives, s: Session, c: Initiator, env: Env, serverKey: Bytes, now: nat)
    requires Safety.Shape(p, s) && s.pending.None? && InStep(c, s)
    requires Verifies(p, env.clientKey, c.signing) && Verifies(p, serverKey, env.serverKey) && SecretsMeet(p)
    ensures var (s1, r1) := ProcessRecord(p, s, FullInit(p, c), env, now, now);
            && (r1.Ok? <==> p.diffieHellman(env.ephemeral, p.publicKey(c.ephemeral)) != ALL_ZERO)
            && (r1.Ok? ==>
                  && |r1.value.records| == 1 && TakeReply(p, c, r1.value.records[0], serverKey).Some?
                  && AwaitsConfirm(p, s1, c, TakeReply(p, c, r1.value.records[0], serverKey).value, s1.transcript))
  {
    hide TranscriptNext, LabelledTag, TrafficKey, FrameBytes, Covered, ClientSignature, Epochs, ConfirmRecord,
         ReplyBody, FullInit, FullInitBody, ProcessRecord, AnswerFullRekeyInit, TakeReply, NewEpoch;
    InitIsHandled(p, s, c, env, now);
    var window := s.current.c2sControl.window;
    var opening := ExpirePrevious(s, now).(current :=
                                           s.current.(c2sControl :=
                                                      s.current.c2sControl.(window := window.Add(window.Next()))));
    var noted := opening.(transcript := TranscriptNext(p, c.transcript, FullInit(p, c)));
    assert |ClientSignature(p, c)| == 64 by { SignatureSize(p, c, env.clientKey); }
    InitFields(p, c);
    ServerAnswers(p, opening, c, noted, env, serverKey, now);
    Safety.FullAnswerEffect(p, opening, noted, FullInitBody(p, c), env.serverKey, env.ephemeral, now);
    if p.diffieHellman(env.ephemeral, p.publicKey(c.ephemeral)) != ALL_ZERO {
      var (s1, r1) := ProcessRecord(p, s, FullInit(p, c), env, now, now);
      ReplyIsTaken(p, c, env, serverKey, r1.value.records[0]);
    }
  }

  lemma SignatureSize(p: Primitives, c: Initiator, public: Bytes)
    requires Verifies(p, public, c.signing)
    ensures |ClientSignature(p, c)| == 64
  {
    hide Covered;
  }
}
