/** The numbers a server session seals its records with: over every run, no two records of one kind and epoch
    have the same. Records that were sealed and then thrown away count too. */
module ServerNonces {
  import opened Prelude
  import opened Record
  import opened Rekey
  import Safety = RekeySafety

  /** What a call seals. A full rekey that ends in an all-zero secret has sealed its answer before. */
  function Drawn(p: Primitives, s: Session, call: Safety.Call): seq<Sealed> {
    match call
    case CallOpen(_, _) => []
    case CallSealData(plaintext, padded) => One(SealData(s, plaintext, padded).1)
    case CallSealControl(plaintext, padded) => One(SealControl(s, plaintext, padded).1)
    case CallUpdateInit(record, body, now) => One(AcceptUpdateInit(p, s, record, body, now).1)
    case CallUpdateCommit(record, body, now) => One(AcceptUpdateCommit(p, s, record, body, now).1)
    case CallFullInit(record, body, clientKey, serverKey, ephemeral, now) =>
      var r := AcceptFullRekeyInit(p, s, record, body, clientKey, serverKey, ephemeral, now).1;
      if r == Err(AllZeroSecret)
      then One(SealFullReply(p, s.(transcript := TranscriptNext(p, s.transcript, record)), body, serverKey,
                             ephemeral).1)
      else One(r)
    case CallFullConfirm(record, body, now) => One(AcceptFullRekeyConfirm(p, s, record, body, now).1)
    case CallRequestUpdate(now) =>
      var r := RequestUpdateIfDue(p, s, now).1;
      if r.Ok? && r.value.Some? then [r.value.value] else []
    case CallPathChallenge(migrationSecret, carrierId, challenge) =>
      var r := PathChallenge(p, s, migrationSecret, carrierId, challenge).1;
      if r.Ok? then [r.value.0] else []
    case CallPathResponse(_, _, _, _) => []
  }

  function One(r: Result<Sealed, Error>): seq<Sealed> {
    if r.Ok? then [r.value] else []
  }

  /** All records sealed in a run, in order. */
  function SealedIn(p: Primitives, start: Session, calls: seq<Safety.Call>): seq<Sealed> {
    if calls == [] then []
    else
      var before := calls[..|calls| - 1];
      SealedIn(p, start, before) + Drawn(p, Safety.Run(p, start, before).0, calls[|calls| - 1])
  }

  function SenderOf(e: Epoch, kind: RecordKind): Sender {
    if kind == Data then e.s2cData else e.s2cControl
  }

  /** The number of a record was drawn before now. */
  ghost predicate Spent(s: Session, r: Sealed) {
    && r.header.number < MAX_RECORDS_PER_EPOCH
    && r.header.epoch <= s.current.epoch
    && (r.header.epoch == s.current.epoch ==> r.header.number < SenderOf(s.current, r.header.kind).next)
  }

  ghost predicate Keeps(s: Session, s1: Session) {
    forall r: Sealed :: Spent(s, r) ==> Spent(s1, r)
  }

  /** What one call does to the numbers: none is given back, and the one it draws is new. */
  ghost predicate Draws(s: Session, s1: Session, drawn: seq<Sealed>) {
    && Keeps(s, s1)
    && |drawn| <= 1
    && (drawn != [] ==> !Spent(s, drawn[0]) && Spent(s1, drawn[0]) && SealedNow(s1, drawn[0]))
  }

  /** A record of the current epoch, under the key of its kind. */
  predicate SealedNow(s: Session, r: Sealed) {
    r.header.epoch == s.current.epoch && r.key == SenderOf(s.current, r.header.kind).key
  }

  /** A sender draws its next number, or stays at the limit. */
  lemma SealOne(s: Sender, plaintext: Bytes, padded: bool)
    ensures var (s1, r) := Seal(s, plaintext, padded);
            && s1 == s.(next := s1.next)
            && if r.Ok?
               then
                 && s.next < MAX_RECORDS_PER_EPOCH && s1.next == s.next + 1
                 && r.value.header.kind == s.kind && r.value.header.epoch == s.epoch && r.value.header.number == s.next
                 && r.value.key == s.key
               else s1.next >= Min(s.next, MAX_RECORDS_PER_EPOCH)
  {
  }

  lemma SendersOfCurrent(p: Primitives, s: Session)
    requires Safety.Shape(p, s)
    ensures s.current.s2cData.kind == Data && s.current.s2cControl.kind == Control
    ensures s.current.s2cData.epoch == s.current.s2cControl.epoch == s.current.epoch
  {
  }

  lemma ControlDraws(p: Primitives, s: Session, plaintext: Bytes, padded: bool)
    requires Safety.Shape(p, s)
    ensures var (s1, r) := SealControl(s, plaintext, padded);
            Draws(s, s1, One(r)) && s1.current.epoch == s.current.epoch
  {
    hide Seal, Safety.Shape;
    SendersOfCurrent(p, s);
    SealOne(s.current.s2cControl, plaintext, padded);
  }

  lemma DataDraws(p: Primitives, s: Session, plaintext: Bytes, padded: bool)
    requires Safety.Shape(p, s)
    ensures var (s1, r) := SealData(s, plaintext, padded); Draws(s, s1, One(r)) && s1.current.epoch == s.current.epoch
  {
    hide Seal, Safety.Shape;
    SendersOfCurrent(p, s);
    SealOne(s.current.s2cData, plaintext, padded);
  }

  /** Numbers only depend on the current epoch and its senders. */
  lemma SameSenders(s: Session, t: Session, s1: Session, t1: Session, drawn: seq<Sealed>)
    requires Draws(s, s1, drawn)
    requires t.current.epoch == s.current.epoch && t.current.s2cData == s.current.s2cData
             && t.current.s2cControl == s.current.s2cControl
    requires t1.current.epoch == s1.current.epoch && t1.current.s2cData == s1.current.s2cData
             && t1.current.s2cControl == s1.current.s2cControl
    ensures Draws(t, t1, drawn)
  {
    forall r: Sealed
      ensures Spent(t, r) <==> Spent(s, r)
      ensures Spent(t1, r) <==> Spent(s1, r)
      ensures SealedNow(t1, r) <==> SealedNow(s1, r)
    {
    }
  }

  lemma TranscribedDraws(p: Primitives, s: Session, frameType: byte, body: Bytes)
    requires Safety.Shape(p, s)
    ensures var (s1, r) := SealTranscribed(p, s, frameType, body);
            Draws(s, s1, One(r)) && s1.current.epoch == s.current.epoch
  {
    hide TranscriptNext, SealControl, Draws, Safety.Shape;
    var plaintext := FrameBytes(Frame(frameType, 0, body));
    ControlDraws(p, s, plaintext, false);
    var (s1, r) := SealControl(s, plaintext, false);
    SameSenders(s, s, s1, SealTranscribed(p, s, frameType, body).0, One(r));
  }

  lemma Nothing(s: Session, s1: Session)
    requires s1.current.epoch == s.current.epoch && s1.current.s2cData == s.current.s2cData
             && s1.current.s2cControl == s.current.s2cControl
    ensures Draws(s, s1, [])
  {
  }

  /** DONE is the first record under a new epoch, which nothing was sealed under before. */
  lemma RotationDraws(p: Primitives, s: Session, record: Sealed, now: nat)
    requires Safety.Shape(p, s) && s.pending.Some?
    ensures var (s1, r) := Rotate(p, s, record, now); Draws(s, s1, One(r))
  {
    hide TranscriptNext, LabelledTag, FrameBytes, BigEndian;
    Safety.RotateEffect(p, s, record, now);
  }

  lemma OpenDraws(p: Primitives, s: Session, record: Sealed, now: nat)
    requires Safety.Shape(p, s)
    ensures Draws(s, Open(s, record, now).0, [])
  {
    hide OpenAt, Draws;
    Nothing(s, Open(s, record, now).0);
  }

  lemma UpdateInitDraws(p: Primitives, s: Session, record: Sealed, body: Bytes, now: nat)
    requires Safety.Shape(p, s)
    ensures var (s1, r) := AcceptUpdateInit(p, s, record, body, now); Draws(s, s1, One(r))
  {
    hide TranscriptNext, UpdateInput, LabelledTag, ConfirmationKey, NewEpoch, SealTranscribed, Draws, BigEndian,
         FromBigEndian;
    var (s1, r) := AcceptUpdateInit(p, s, record, body, now);
    Nothing(s, s);
    if |body| == 72 && s.pending.None? && s.current.epoch + 1 < U32_LIMIT {
      var input := UpdateInput(s.id, s.current.epoch, s.current.epoch + 1, body[8..40], s.transcript);
      var context := p.sha256(input);
      var confirmKey := ConfirmationKey(p, p.hmac(s.current.secret, context), s.id, s.current.epoch + 1);
      var noted := s.(transcript := TranscriptNext(p, s.transcript, record));
      var reply := BigEndian(s.current.epoch + 1, 4) + LabelledTag(p, confirmKey, ServerAck, context);
      NotedShape(p, s, noted);
      TranscribedDraws(p, noted, 0x06, reply);
      var (sealed, outcome) := SealTranscribed(p, noted, 0x06, reply);
      if FromBigEndian(body[0..4]) == s.current.epoch && FromBigEndian(body[4..8]) == s.current.epoch + 1
         && body[40..72] == p.hmac(s.current.secret, input)
      {
        SameSenders(noted, s, sealed, s1, One(outcome));
      }
    }
  }

  lemma NotedShape(p: Primitives, s: Session, noted: Session)
    requires Safety.Shape(p, s) && noted == s.(transcript := noted.transcript)
    ensures Safety.Shape(p, noted)
  {
  }

  lemma FullInitDraws(p: Primitives, s: Session, record: Sealed, body: Bytes, clientKey: Bytes, serverKey: Bytes,
                      ephemeral: Bytes, now: nat)
    requires Safety.Shape(p, s)
    ensures Draws(s, AcceptFullRekeyInit(p, s, record, body, clientKey, serverKey, ephemeral, now).0,
                  Drawn(p, s, Safety.CallFullInit(record, body, clientKey, serverKey, ephemeral, now)))
  {
    hide TranscriptNext, FullRekeyContext, AnswerFullRekeyInit, SealFullReply, Draws, FromBigEndian;
    Nothing(s, s);
    if |body| == 120 {
      AnswerDraws(p, s, s.(transcript := TranscriptNext(p, s.transcript, record)), body, serverKey, ephemeral, now);
    }
  }

  lemma AnswerDraws(p: Primitives, s: Session, noted: Session, body: Bytes, serverKey: Bytes, ephemeral: Bytes,
                    now: nat)
    requires Safety.Shape(p, s) && noted == s.(transcript := noted.transcript) && |body| == 120
    ensures var (s1, r) := AnswerFullRekeyInit(p, noted, body, serverKey, ephemeral, now);
            Draws(s, s1, if r == Err(AllZeroSecret) then One(SealFullReply(p, noted, body, serverKey, ephemeral).1)
                  else One(r))
  {
    hide TranscriptNext, FullRekeyContext, NewEpoch, SealTranscribed, Draws, ServerSignature;
    var (s1, r) := AnswerFullRekeyInit(p, noted, body, serverKey, ephemeral, now);
    var (sealed, reply) := SealFullReply(p, noted, body, serverKey, ephemeral);
    var content := body[0..24] + p.publicKey(ephemeral) + ServerSignature(p, noted, body, serverKey, ephemeral);
    NotedShape(p, s, noted);
    TranscribedDraws(p, noted, 0x0A, content);
    SealFails(p, noted, 0x0A, content);
    SameSenders(noted, s, sealed, s1, One(reply));
  }

  lemma SealFails(p: Primitives, s: Session, frameType: byte, body: Bytes)
    ensures SealTranscribed(p, s, frameType, body).1 != Err(AllZeroSecret)
  {
    hide FrameBytes, TranscriptNext;
  }

  lemma CallDraws(p: Primitives, s: Session, call: Safety.Call)
    requires Safety.Shape(p, s)
    ensures Draws(s, Safety.Apply(p, s, call).0, Drawn(p, s, call))
  {
    hide Draws, Open, SealData, SealControl, AcceptUpdateInit, AcceptUpdateCommit, AcceptFullRekeyInit,
         AcceptFullRekeyConfirm, RequestUpdateIfDue, PathChallenge, Safety.Shape, SealFullReply, Rotate;
    Nothing(s, s);
    match call
    case CallOpen(record, now) => OpenDraws(p, s, record, now);
    case CallSealData(plaintext, padded) => DataDraws(p, s, plaintext, padded);
    case CallSealControl(plaintext, padded) => ControlDraws(p, s, plaintext, padded);
    case CallUpdateInit(record, body, now) => UpdateInitDraws(p, s, record, body, now);
    case CallUpdateCommit(record, body, now) => CommitDraws(p, s, record, body, now);
    case CallFullInit(record, body, clientKey, serverKey, ephemeral, now) =>
      FullInitDraws(p, s, record, body, clientKey, serverKey, ephemeral, now);
    case CallFullConfirm(record, body, now) => CommitDraws(p, s, record, body, now);
    case CallRequestUpdate(now) => RequestDraws(p, s, now);
    case CallPathChallenge(migrationSecret, carrierId, challenge) =>
      ChallengeDraws(p, s, migrationSecret, carrierId, challenge);
    case CallPathResponse(record, body, carrierId, expected) =>
      Nothing(s, AcceptPathResponse(p, s, record, body, carrierId, expected).0);
  }

  lemma CommitDraws(p: Primitives, s: Session, record: Sealed, body: Bytes, now: nat)
    requires Safety.Shape(p, s)
    ensures var (s1, r) := AcceptUpdateCommit(p, s, record, body, now); Draws(s, s1, One(r))
    ensures var (s1, r) := AcceptFullRekeyConfirm(p, s, record, body, now); Draws(s, s1, One(r))
  {
    hide Draws, Rotate, LabelledTag, FromBigEndian;
    Nothing(s, s);
    if s.pending.Some? { RotationDraws(p, s, record, now); }
  }

  lemma RequestDraws(p: Primitives, s: Session, now: nat)
    requires Safety.Shape(p, s)
    ensures Draws(s, RequestUpdateIfDue(p, s, now).0, Drawn(p, s, Safety.CallRequestUpdate(now)))
  {
    hide Draws, SealTranscribed, BigEndian;
    var s1 := RequestUpdateIfDue(p, s, now).0;
    Nothing(s, s);
    TranscribedDraws(p, s, 0x04, BigEndian(s.current.epoch, 4));
    var (sealed, outcome) := SealTranscribed(p, s, 0x04, BigEndian(s.current.epoch, 4));
    SameSenders(s, s, sealed, sealed.(updateRequested := true, updateDeadline := Some(now + UPDATE_TIMEOUT)),
                One(outcome));
  }

  lemma ChallengeDraws(p: Primitives, s: Session, migrationSecret: Bytes, carrierId: Bytes, challenge: Bytes)
    requires Safety.Shape(p, s)
    ensures Draws(s, PathChallenge(p, s, migrationSecret, carrierId, challenge).0,
                  Drawn(p, s, Safety.CallPathChallenge(migrationSecret, carrierId, challenge)))
  {
    hide Draws, SealTranscribed, Ascii;
    Nothing(s, s);
    TranscribedDraws(p, s, 0x0C, carrierId + challenge);
    var (sealed, outcome) := SealTranscribed(p, s, 0x0C, carrierId + challenge);
    var r := PathChallenge(p, s, migrationSecret, carrierId, challenge).1;
    if s.pending.None? {
      assert One(outcome) == if r.Ok? then [r.value.0] else [];
    }
  }

  // ---- Main results ----

  predicate SameNumber(a: Sealed, b: Sealed) {
    a.header.kind == b.header.kind && a.header.epoch == b.header.epoch && a.header.number == b.header.number
  }

  ghost predicate AllDiffer(sealed: seq<Sealed>) {
    forall i, j | 0 <= i < j < |sealed| :: !SameNumber(sealed[i], sealed[j])
  }

  lemma DrawnDiffers(s: Session, s1: Session, sealed: seq<Sealed>, drawn: seq<Sealed>)
    requires AllDiffer(sealed) && (forall r | r in sealed :: Spent(s, r)) && Draws(s, s1, drawn)
    ensures AllDiffer(sealed + drawn) && forall r | r in sealed + drawn :: Spent(s1, r)
  {
    var all := sealed + drawn;
    forall i, j | 0 <= i < j < |all|
      ensures !SameNumber(all[i], all[j])
    {
      if j == |sealed| { assert all[i] in sealed; }
    }
  }

  lemma {:induction false} RunDraws(p: Primitives, start: Session, calls: seq<Safety.Call>)
    requires Safety.Shape(p, start) && Safety.LogInv(start, [])
    ensures var sealed := SealedIn(p, start, calls);
            AllDiffer(sealed) && forall r | r in sealed :: Spent(Safety.Run(p, start, calls).0, r)
    decreases |calls|
  {
    hide Spent, Draws, Drawn, Safety.Shape, Safety.LogInv, Safety.Apply;
    if calls != [] {
      var before := calls[..|calls| - 1];
      RunDraws(p, start, before);
      Safety.RunKeepsInv(p, start, before);
      var s := Safety.Run(p, start, before).0;
      CallDraws(p, s, calls[|calls| - 1]);
      DrawnDiffers(s, Safety.Apply(p, s, calls[|calls| - 1]).0, SealedIn(p, start, before),
                   Drawn(p, s, calls[|calls| - 1]));
    }
  }

  /** Over every adversarial run of a session, across rotations, failed calls and answers thrown away, two
      records sealed under one kind and epoch have different numbers, and so different nonces under any IV. */
  lemma ServerNeverReusesANonce(p: Primitives, id: Bytes, secret: Digest, handshakeTranscript: Digest, now: nat,
                                calls: seq<Safety.Call>, i: nat, j: nat, iv: Bytes)
    requires i < j < |SealedIn(p, New(p, id, secret, handshakeTranscript, now), calls)| && |iv| == 12
    ensures var sealed := SealedIn(p, New(p, id, secret, handshakeTranscript, now), calls);
            var a, b := sealed[i].header, sealed[j].header;
            && a.number < MAX_RECORDS_PER_EPOCH && b.number < MAX_RECORDS_PER_EPOCH
            && (a.kind == b.kind && a.epoch == b.epoch
                ==> a.number != b.number && Nonce(iv, a.number) != Nonce(iv, b.number))
  {
    hide Safety.Shape, Safety.LogInv, SealedIn, Safety.Run, New, Nonce;
    var start := New(p, id, secret, handshakeTranscript, now);
    Safety.NewSessionStartsWell(p, id, secret, handshakeTranscript, now);
    RunDraws(p, start, calls);
    var sealed := SealedIn(p, start, calls);
    assert sealed[i] in sealed && sealed[j] in sealed;
    assert !SameNumber(sealed[i], sealed[j]);
    NonceInjective(iv, sealed[i].header.number, sealed[j].header.number);
  }
}
