/** What holds over every run of the server's session, with records, messages and clock readings chosen
    by an adversary: the operations come in any order, with any arguments, also after failures. */
module RekeySafety {
  import opened Prelude
  import opened Record
  import opened ReplayWindow
  import opened Rekey

  datatype Call =
    | CallOpen(record: Sealed, now: nat)
    | CallSealData(plaintext: Bytes, padded: bool)
    | CallSealControl(plaintext: Bytes, padded: bool)
    | CallUpdateInit(record: Sealed, body: Bytes, now: nat)
    | CallUpdateCommit(record: Sealed, body: Bytes, now: nat)
    | CallFullInit(record: Sealed, body: Bytes, clientKey: Bytes, serverKey: Bytes, ephemeral: Bytes, now: nat)
    | CallFullConfirm(record: Sealed, body: Bytes, now: nat)
    | CallRequestUpdate(now: nat)
    | CallPathChallenge(migrationSecret: Bytes, carrierId: Bytes, challenge: Bytes)
    | CallPathResponse(record: Sealed, body: Bytes, carrierId: Bytes, expected: Digest)

  /** What a run leaves on record: records opened, data records sealed (or refused by the sender),
      epochs retired, and traffic counters overflowing. */
  datatype Entry =
    | Opened(kind: RecordKind, epoch: nat, number: nat, position: Position, at: nat, size: nat)
    | DataSealed(epoch: nat, size: nat, ok: bool)
    | Retired(epoch: nat, at: nat)
    | Overflowed

  predicate IsOverflow(error: Error) {
    error.DataCounterOverflow? || error.ByteCounterOverflow?
  }

  function Apply(p: Primitives, s: Session, call: Call): (Session, seq<Entry>) {
    match call
    case CallOpen(record, now) =>
      var (s1, r) := Open(s, record, now);
      (s1,
       match r
       case Ok(o) => [Opened(o.header.kind, o.header.epoch, o.header.number, o.position, now, |o.plaintext|)]
       case Err(e) => if IsOverflow(e) then [Overflowed] else [])
    case CallSealData(plaintext, padded) =>
      var (s1, r) := SealData(s, plaintext, padded);
      (s1, if r.Err? && IsOverflow(r.error) then [Overflowed] else [DataSealed(s.current.epoch, |plaintext|, r.Ok?)])
    case CallSealControl(plaintext, padded) => (SealControl(s, plaintext, padded).0, [])
    case CallUpdateInit(record, body, now) => (AcceptUpdateInit(p, s, record, body, now).0, [])
    case CallUpdateCommit(record, body, now) =>
      var (s1, r) := AcceptUpdateCommit(p, s, record, body, now);
      (s1, if r.Ok? then [Retired(s.current.epoch, now)] else [])
    case CallFullInit(record, body, clientKey, serverKey, ephemeral, now) =>
      (AcceptFullRekeyInit(p, s, record, body, clientKey, serverKey, ephemeral, now).0, [])
    case CallFullConfirm(record, body, now) =>
      var (s1, r) := AcceptFullRekeyConfirm(p, s, record, body, now);
      (s1, if r.Ok? then [Retired(s.current.epoch, now)] else [])
    case CallRequestUpdate(now) => (RequestUpdateIfDue(p, s, now).0, [])
    case CallPathChallenge(migrationSecret, carrierId, challenge) =>
      (PathChallenge(p, s, migrationSecret, carrierId, challenge).0, [])
    case CallPathResponse(record, body, carrierId, expected) =>
      (AcceptPathResponse(p, s, record, body, carrierId, expected).0, [])
  }

  /** The last state and the log of a run, built from its last call. */
  function Run(p: Primitives, start: Session, calls: seq<Call>): (Session, seq<Entry>) {
    if calls == [] then (start, [])
    else
      var (s, log) := Run(p, start, calls[..|calls| - 1]);
      var (s1, entries) := Apply(p, s, calls[|calls| - 1]);
      (s1, log + entries)
  }

  // ---- The shape of a reachable session ----

  ghost predicate WellKeyed(p: Primitives, id: Bytes, e: Epoch) {
    && e.epoch < U32_LIMIT
    && e.c2sData.kind == Data && e.c2sControl.kind == Control && e.s2cData.kind == Data && e.s2cControl.kind == Control
    && e.c2sData.sessionId == e.c2sControl.sessionId == e.s2cData.sessionId == e.s2cControl.sessionId == id
    && e.c2sData.epoch == e.c2sControl.epoch == e.s2cData.epoch == e.s2cControl.epoch == e.epoch
    && e.c2sData.key == TrafficKey(p, e.secret, id, e.epoch, Data, C2S)
    && e.c2sControl.key == TrafficKey(p, e.secret, id, e.epoch, Control, C2S)
    && e.s2cData.key == TrafficKey(p, e.secret, id, e.epoch, Data, S2C)
    && e.s2cControl.key == TrafficKey(p, e.secret, id, e.epoch, Control, S2C)
    && e.c2sData.window.Valid() && e.c2sControl.window.Valid()
    && e.c2sData.window.highest <= U64_MAX && e.c2sControl.window.highest <= U64_MAX
  }

  ghost predicate Shape(p: Primitives, s: Session) {
    && WellKeyed(p, s.id, s.current)
    && s.dataRecords < U64_LIMIT && s.plaintextBytes < U64_LIMIT
    && (s.updateRequested <==> s.updateDeadline.Some?)
    && (s.pending.Some? ==>
          && WellKeyed(p, s.id, s.pending.value.state)
          && s.pending.value.state.epoch == s.current.epoch + 1
          && s.pending.value.state.s2cControl.next == 0
          && s.pending.value.state.c2sData.window.seen == {}
          && s.updateRequested)
    && (s.previous.Some? ==>
          && WellKeyed(p, s.id, s.previous.value.state)
          && s.previous.value.state.epoch + 1 == s.current.epoch
          && s.previous.value.remaining <= OLD_EPOCH_RECORDS)
  }

  /** The three epochs a record can name are different, so which one opens it never depends on the
      order of the tests. */
  lemma DispatchIsUnambiguous(p: Primitives, s: Session, epoch: nat)
    requires Shape(p, s)
    ensures epoch == s.current.epoch ==>
              && (s.pending.Some? ==> epoch != s.pending.value.state.epoch)
              && (s.previous.Some? ==> epoch != s.previous.value.state.epoch)
    ensures s.pending.Some? && epoch == s.pending.value.state.epoch ==>
              s.previous.Some? ==> epoch != s.previous.value.state.epoch
  {
  }

  /** Neither windows nor epochs nor traffic counters change. */
  ghost predicate Quiet(s: Session, s1: Session) {
    && s1.id == s.id
    && s1.current.epoch == s.current.epoch
    && s1.current.c2sData == s.current.c2sData
    && s1.current.c2sControl == s.current.c2sControl
    && s1.pending == s.pending
    && s1.previous == s.previous
    && s1.dataRecords == s.dataRecords
    && s1.plaintextBytes == s.plaintextBytes
  }

  /** An update begins: a fresh next epoch becomes pending; the old previous epoch may expire. */
  ghost predicate Begins(p: Primitives, s: Session, s1: Session) {
    && s.pending.None?
    && s.current.epoch + 1 < U32_LIMIT
    && s1.pending.Some?
    && s1.pending.value.state == NewEpoch(p, s.id, s.current.epoch + 1, s1.pending.value.state.secret)
    && (s1.previous == s.previous || s1.previous == None)
    && Quiet(s, s1.(pending := None, previous := s.previous))
    && s1.updateRequested && s1.updateDeadline.Some?
  }

  ghost predicate Rotates(s: Session, s1: Session, now: nat) {
    && s.pending.Some?
    && s1.id == s.id
    && s1.current == s.pending.value.state.(s2cControl := s1.current.s2cControl)
    && s1.current.s2cControl == s.pending.value.state.s2cControl.(next := s1.current.s2cControl.next)
    && s1.pending == None
    && s1.previous == Some(Previous(s.current, now + OLD_EPOCH_GRACE, OLD_EPOCH_RECORDS))
    && s1.dataRecords == 0 && s1.plaintextBytes == 0
    && !s1.updateRequested && s1.updateDeadline == None
  }

  lemma SealTranscribedIsQuiet(p: Primitives, s: Session, frameType: byte, body: Bytes)
    requires Shape(p, s)
    ensures Quiet(s, SealTranscribed(p, s, frameType, body).0) && Shape(p, SealTranscribed(p, s, frameType, body).0)
    ensures SealTranscribed(p, s, frameType, body).0.updateRequested == s.updateRequested
    ensures SealTranscribed(p, s, frameType, body).0.updateDeadline == s.updateDeadline
  {
  }

  lemma FreshEpochIsWellKeyed(p: Primitives, id: Bytes, epoch: nat, secret: Digest)
    requires epoch < U32_LIMIT
    ensures WellKeyed(p, id, NewEpoch(p, id, epoch, secret))
  {
  }

  lemma UpdateInitEffect(p: Primitives, s: Session, record: Sealed, body: Bytes, now: nat)
    requires Shape(p, s)
    ensures var (s1, r) := AcceptUpdateInit(p, s, record, body, now);
            Shape(p, s1) && (Begins(p, s, s1) || Quiet(s, s1)) && (r.Ok? ==> Begins(p, s, s1))
  {
    hide TranscriptNext, UpdateInput, LabelledTag, ConfirmationKey, BigEndian, FromBigEndian, SealTranscribed,
         WellKeyed;
    var (s1, r) := AcceptUpdateInit(p, s, record, body, now);
    if |body| == 72 {
      var noted := s.(transcript := TranscriptNext(p, s.transcript, record));
      var currentEpoch, nextEpoch := FromBigEndian(body[0..4]), FromBigEndian(body[4..8]);
      var context := p.sha256(UpdateInput(s.id, currentEpoch, nextEpoch, body[8..40], s.transcript));
      var confirmKey := ConfirmationKey(p, p.hmac(s.current.secret, context), s.id, nextEpoch);
      SealTranscribedIsQuiet(p, noted, 0x06, BigEndian(nextEpoch, 4) + LabelledTag(p, confirmKey, ServerAck, context));
    }
    if r.Ok? {
      FreshEpochIsWellKeyed(p, s.id, s.current.epoch + 1, s1.pending.value.state.secret);
    }
  }

  lemma FullInitEffect(p: Primitives, s: Session, record: Sealed, body: Bytes, clientKey: Bytes, serverKey: Bytes,
                       ephemeral: Bytes, now: nat)
    requires Shape(p, s)
    ensures var (s1, r) := AcceptFullRekeyInit(p, s, record, body, clientKey, serverKey, ephemeral, now);
            Shape(p, s1) && (Begins(p, s, s1) || Quiet(s, s1)) && (r.Ok? ==> Begins(p, s, s1))
  {
    hide TranscriptNext, FullRekeyContext, FromBigEndian, AnswerFullRekeyInit, Shape, Begins;
    var noted := s.(transcript := TranscriptNext(p, s.transcript, record));
    if |body| == 120 && s.pending.None? && s.current.epoch + 1 < U32_LIMIT {
      FullAnswerEffect(p, s, noted, body, serverKey, ephemeral, now);
    }
  }

  lemma FullAnswerEffect(p: Primitives, s: Session, noted: Session, body: Bytes, serverKey: Bytes, ephemeral: Bytes,
                         now: nat)
    requires Shape(p, s) && s.pending.None? && noted == s.(transcript := noted.transcript)
    requires |body| == 120 && s.current.epoch + 1 < U32_LIMIT
    ensures var (s1, r) := AnswerFullRekeyInit(p, noted, body, serverKey, ephemeral, now);
            Shape(p, s1) && (Begins(p, s, s1) || Quiet(s, s1)) && (r.Ok? ==> Begins(p, s, s1))
  {
    hide TranscriptNext, FullRekeyContext, SealTranscribed, WellKeyed;
    var serverPublic: Bytes := p.publicKey(ephemeral);
    var serverInput := FullRekeyContext(p, ServerSigned, noted.id, body, serverPublic, noted.transcript);
    SealTranscribedIsQuiet(p, noted, 0x0A, body[0..24] + serverPublic + p.sign(serverKey, serverInput));
    var (s1, r) := AnswerFullRekeyInit(p, noted, body, serverKey, ephemeral, now);
    if r.Ok? {
      FreshEpochIsWellKeyed(p, s.id, s.current.epoch + 1, s1.pending.value.state.secret);
    }
  }

  /** DONE is the first record under the new epoch's sending key, so sealing it cannot fail. */
  lemma RotateEffect(p: Primitives, s: Session, record: Sealed, now: nat)
    requires Shape(p, s) && s.pending.Some?
    ensures var (s1, r) := Rotate(p, s, record, now);
            Shape(p, s1) && Rotates(s, s1, now) && r.Ok? && r.value.header.number == 0
  {
    var (s1, r) := Rotate(p, s, record, now);
    assert s1.current == s.pending.value.state.(s2cControl := s.pending.value.state.s2cControl.(next := 1));
  }

  lemma CommitEffect(p: Primitives, s: Session, record: Sealed, body: Bytes, now: nat)
    requires Shape(p, s)
    ensures var (s1, r) := AcceptUpdateCommit(p, s, record, body, now);
            Shape(p, s1) && if r.Ok? then Rotates(s, s1, now) else s1 == s
    ensures var (s1, r) := AcceptFullRekeyConfirm(p, s, record, body, now);
            Shape(p, s1) && if r.Ok? then Rotates(s, s1, now) else s1 == s
  {
    if s.pending.Some? { RotateEffect(p, s, record, now); }
  }

  lemma SealControlIsQuiet(p: Primitives, s: Session, plaintext: Bytes, padded: bool)
    requires Shape(p, s)
    ensures Shape(p, SealControl(s, plaintext, padded).0) && Quiet(s, SealControl(s, plaintext, padded).0)
  {
  }

  lemma RequestUpdateIsQuiet(p: Primitives, s: Session, now: nat)
    requires Shape(p, s)
    ensures Shape(p, RequestUpdateIfDue(p, s, now).0) && Quiet(s, RequestUpdateIfDue(p, s, now).0)
  {
    hide SealTranscribed, BigEndian;
    SealTranscribedIsQuiet(p, s, 0x04, BigEndian(s.current.epoch, 4));
  }

  lemma PathCallsAreQuiet(p: Primitives, s: Session, migrationSecret: Bytes, carrierId: Bytes, challenge: Bytes,
                          record: Sealed, body: Bytes, expected: Digest)
    requires Shape(p, s)
    ensures Shape(p, PathChallenge(p, s, migrationSecret, carrierId, challenge).0)
    ensures Quiet(s, PathChallenge(p, s, migrationSecret, carrierId, challenge).0)
    ensures Shape(p, AcceptPathResponse(p, s, record, body, carrierId, expected).0)
    ensures Quiet(s, AcceptPathResponse(p, s, record, body, carrierId, expected).0)
  {
    hide SealTranscribed, TranscriptNext, Ascii;
    SealTranscribedIsQuiet(p, s, 0x0C, carrierId + challenge);
  }

  /** The timer fires exactly when a poll has something to do. In every reachable state the time of the next
      check does not depend on when it is asked for, the branch for an update without a deadline being dead.
      While an update is under way a poll ends the session if and only if that time has come; otherwise a poll
      asks for an update if and only if it has come or a traffic limit is reached. */
  lemma NextCheckIsExact(p: Primitives, s: Session, asked: nat, now: nat)
    requires Shape(p, s)
    ensures var due := NextUpdateCheck(s, asked);
            var outcome := RequestUpdateIfDue(p, s, now).1;
            && due == NextUpdateCheck(s, now)
            && (outcome == Err(UpdateTimedOut) <==> s.updateRequested && now >= due)
            && (s.updateRequested && now < due ==> outcome == Ok(None))
            && (!s.updateRequested ==>
                  (outcome != Ok(None) <==>
                     now >= due || s.dataRecords >= UPDATE_RECORD_LIMIT || s.plaintextBytes >= UPDATE_BYTE_LIMIT))
  {
    hide SealTranscribed, BigEndian;
    SealTranscribedFails(p, s, 0x04, BigEndian(s.current.epoch, 4));
  }

  lemma SealTranscribedFails(p: Primitives, s: Session, frameType: byte, body: Bytes)
    ensures SealTranscribed(p, s, frameType, body).1 != Err(UpdateTimedOut)
  {
    hide FrameBytes, TranscriptNext;
  }

  /** A path response is accepted exactly when it names the carrier of the challenge and carries the one tag
      over the transcript as it was when the challenge had been sent. */
  lemma PathResponseIff(p: Primitives, s: Session, migrationSecret: Bytes, carrierId: Bytes, challenge: Bytes,
                        record: Sealed, body: Bytes)
    requires |carrierId| == 16 && PathChallenge(p, s, migrationSecret, carrierId, challenge).1.Ok?
    ensures var (s1, sent) := PathChallenge(p, s, migrationSecret, carrierId, challenge);
            var tag := p.hmac(migrationSecret,
                              Ascii("RekaSerdoba/1 path response") + s.id + carrierId + challenge + s1.transcript);
            && s.pending.None? && s1.transcript == TranscriptNext(p, s.transcript, sent.value.0)
            && (AcceptPathResponse(p, s1, record, body, carrierId, sent.value.1).1.Ok? <==> body == carrierId + tag)
  {
    hide FrameBytes, TranscriptNext, Ascii;
    if |body| == 48 { assert body == body[..16] + body[16..]; }
  }

  // ---- Opening ----

  /** The outcome of opening at one epoch: the number was not seen before, and is seen afterwards. */
  lemma OpenFromEffect(p: Primitives, id: Bytes, e: Epoch, record: Sealed)
    requires WellKeyed(p, id, e) && record.header.Valid()
    ensures var (e1, r) := OpenFrom(e, record);
            var kind := record.header.kind;
            && WellKeyed(p, id, e1) && e1.epoch == e.epoch
            && e1.s2cControl == e.s2cControl && e1.s2cData == e.s2cData
            && (kind == Data ==> e1.c2sControl == e.c2sControl)
            && (kind == Control ==> e1.c2sData == e.c2sData)
            && if r.Err? then e1 == e && !IsOverflow(r.error)
               else
                 && r.Ok?
                 && record.key == e.Receiver(kind).key
                 && record.header.number !in e.Window(kind).seen
                 && e1.Window(kind).seen == e.Window(kind).seen + {record.header.number}
                 && r.value == record.plaintext
  {
  }

  /** The window of one epoch and kind; what a session remembers having opened there. */
  ghost predicate Recalls(s: Session, kind: RecordKind, epoch: nat, number: nat) {
    && epoch <= s.current.epoch + (if s.pending.Some? then 1 else 0)
    && (epoch == s.current.epoch ==> number in s.current.Window(kind).seen)
    && (s.pending.Some? && epoch == s.pending.value.state.epoch ==> number in s.pending.value.state.Window(kind).seen)
    && (s.previous.Some? && epoch == s.previous.value.state.epoch
        ==> number in s.previous.value.state.Window(kind).seen)
  }

  ghost predicate Remembers(s: Session, s1: Session) {
    forall kind, epoch, number :: Recalls(s, kind, epoch, number) ==> Recalls(s1, kind, epoch, number)
  }

  /** Everything one `open` can do to a session. */
  ghost predicate OpenEffect(s: Session, s1: Session, record: Sealed, now: nat, r: Result<OpenedRecord, Error>) {
    && s1.id == s.id
    && s1.current.epoch == s.current.epoch
    && (s1.pending.Some? <==> s.pending.Some?)
    && Remembers(s, s1)
    && (r.Ok? ==>
          && r.value.header == record.header && r.value.plaintext == record.plaintext
          && !Recalls(s, record.header.kind, record.header.epoch, record.header.number)
          && Recalls(s1, record.header.kind, record.header.epoch, record.header.number)
          && (r.value.position == Current <==> record.header.epoch == s.current.epoch)
          && (r.value.position == Pending_ ==>
                record.header.epoch == s.current.epoch + 1 && record.header.kind == Control)
          && (r.value.position == Previous_ ==>
                && s.previous.Some? && record.header.epoch == s.previous.value.state.epoch
                && now < s.previous.value.expiresAt
                && s.previous.value.remaining > 0))
    && (r.Ok? && r.value.position == Previous_ ==>
          && s1.previous.Some? && s1.previous.value.state.epoch == s.previous.value.state.epoch
          && s1.previous.value.expiresAt == s.previous.value.expiresAt
          && s1.previous.value.remaining == s.previous.value.remaining - 1)
    && (!(r.Ok? && r.value.position == Previous_) && s1.previous.Some? ==>
          && s.previous.Some? && s1.previous.value == s.previous.value)
    && var counts := r.Ok? && r.value.position == Current && record.header.kind == Data;
       (r.Err? && IsOverflow(r.error)) ||
       (&& s1.dataRecords == s.dataRecords + (if counts then 1 else 0)
        && s1.plaintextBytes == s.plaintextBytes + (if counts then |record.plaintext| else 0))
  }

  lemma OpenCurrentEffect(p: Primitives, s: Session, record: Sealed, now: nat)
    requires Shape(p, s) && record.header.Valid() && record.header.epoch == s.current.epoch
    ensures Shape(p, Open(s, record, now).0)
    ensures OpenEffect(s, Open(s, record, now).0, record, now, Open(s, record, now).1)
  {
    hide OpenFrom, WellKeyed, Remembers, Recalls;
    OpenFromEffect(p, s.id, s.current, record);
    var (state, r) := OpenFrom(s.current, record);
    CurrentRemembers(p, s, Open(s, record, now).0, record.header.kind, record.header.number, r.Ok?);
  }

  /** One window of the current epoch recalls one number more, or none; the previous epoch may be gone. */
  lemma CurrentRemembers(p: Primitives, s: Session, s1: Session, kind: RecordKind, number: nat, more: bool)
    requires Shape(p, s) && s1.current.epoch == s.current.epoch && s1.pending == s.pending
    requires s1.previous.Some? ==> s1.previous == s.previous
    requires s1.current.Window(kind).seen == s.current.Window(kind).seen + (if more then {number} else {})
    requires forall k | k != kind :: s1.current.Window(k) == s.current.Window(k)
    ensures Remembers(s, s1)
    ensures number !in s.current.Window(kind).seen ==> !Recalls(s, kind, s.current.epoch, number)
    ensures more ==> Recalls(s1, kind, s.current.epoch, number)
  {
  }

  lemma OpenPendingEffect(p: Primitives, s: Session, record: Sealed, now: nat)
    requires Shape(p, s) && record.header.Valid() && record.header.epoch != s.current.epoch
    requires s.pending.Some? && record.header.epoch == s.pending.value.state.epoch
    ensures Shape(p, Open(s, record, now).0)
    ensures OpenEffect(s, Open(s, record, now).0, record, now, Open(s, record, now).1)
  {
    hide OpenFrom, WellKeyed;
    OpenFromEffect(p, s.id, s.pending.value.state, record);
  }

  lemma OpenOldEffect(p: Primitives, s: Session, record: Sealed, now: nat)
    requires Shape(p, s)
    requires record.header.Valid() ==>
               && record.header.epoch != s.current.epoch
               && (s.pending.Some? ==> record.header.epoch != s.pending.value.state.epoch)
    ensures Shape(p, Open(s, record, now).0)
    ensures OpenEffect(s, Open(s, record, now).0, record, now, Open(s, record, now).1)
  {
    hide OpenFrom, WellKeyed;
    if s.previous.Some? && record.header.Valid() {
      OpenFromEffect(p, s.id, s.previous.value.state, record);
    }
  }

  lemma OpenCallEffect(p: Primitives, s: Session, record: Sealed, now: nat)
    requires Shape(p, s)
    ensures Shape(p, Open(s, record, now).0)
    ensures OpenEffect(s, Open(s, record, now).0, record, now, Open(s, record, now).1)
  {
    if record.header.Valid() && record.header.epoch == s.current.epoch {
      OpenCurrentEffect(p, s, record, now);
    } else if record.header.Valid() && s.pending.Some? && record.header.epoch == s.pending.value.state.epoch {
      OpenPendingEffect(p, s, record, now);
    } else {
      OpenOldEffect(p, s, record, now);
    }
  }

  lemma SealDataEffect(p: Primitives, s: Session, plaintext: Bytes, padded: bool)
    requires Shape(p, s)
    ensures var (s1, r) := SealData(s, plaintext, padded);
            && Shape(p, s1)
            && Quiet(s, s1.(dataRecords := s.dataRecords, plaintextBytes := s.plaintextBytes))
            && ((r.Err? && IsOverflow(r.error)) ||
                (s1.dataRecords == s.dataRecords + 1 && s1.plaintextBytes == s.plaintextBytes + |plaintext|))
  {
    hide Seal;
    SealKeepsSender(s.current.s2cData, plaintext, padded);
  }

  lemma SealKeepsSender(sender: Sender, plaintext: Bytes, padded: bool)
    ensures var (sender1, r) := Seal(sender, plaintext, padded);
            sender1 == sender.(next := sender1.next) && (r.Err? ==> !IsOverflow(r.error))
  {
  }

  // ---- The log ----

  predicate SameRecord(a: Entry, b: Entry) {
    a.Opened? && b.Opened? && a.kind == b.kind && a.epoch == b.epoch && a.number == b.number
  }

  predicate IsPreviousOpen(e: Entry, epoch: nat) {
    e.Opened? && e.position == Previous_ && e.epoch == epoch
  }

  predicate IsTraffic(e: Entry, epoch: nat) {
    || (e.Opened? && e.kind == Data && e.position == Current && e.epoch == epoch)
    || (e.DataSealed? && e.epoch == epoch)
  }

  function PreviousOpens(log: seq<Entry>, epoch: nat): nat {
    if log == [] then 0
    else PreviousOpens(log[..|log| - 1], epoch) + (if IsPreviousOpen(log[|log| - 1], epoch) then 1 else 0)
  }

  function TrafficCount(log: seq<Entry>, epoch: nat): nat {
    if log == [] then 0
    else TrafficCount(log[..|log| - 1], epoch) + (if IsTraffic(log[|log| - 1], epoch) then 1 else 0)
  }

  function TrafficBytes(log: seq<Entry>, epoch: nat): nat {
    if log == [] then 0
    else TrafficBytes(log[..|log| - 1], epoch) + (if IsTraffic(log[|log| - 1], epoch) then log[|log| - 1].size else 0)
  }

  ghost predicate OpenedAtMostOnce(log: seq<Entry>) {
    forall i, j | 0 <= i < j < |log| :: !SameRecord(log[i], log[j])
  }

  ghost predicate LogRecalled(s: Session, log: seq<Entry>) {
    forall i | 0 <= i < |log| && log[i].Opened? :: Recalls(s, log[i].kind, log[i].epoch, log[i].number)
  }

  /** An epoch is retired at most once, in increasing order, and only a lower one than the current. */
  ghost predicate RetiredInOrder(s: Session, log: seq<Entry>) {
    && (forall i | 0 <= i < |log| && log[i].Retired? :: log[i].epoch < s.current.epoch)
    && (forall i, j | 0 <= i < j < |log| && log[i].Retired? && log[j].Retired? :: log[i].epoch < log[j].epoch)
  }

  ghost predicate WithinGrace(log: seq<Entry>, e: Entry) {
    e.Opened? && e.position == Previous_ ==> exists t: nat :: Retired(e.epoch, t) in log && e.at < t + OLD_EPOCH_GRACE
  }

  ghost predicate BudgetKept(s: Session, log: seq<Entry>) {
    && (forall epoch: nat :: PreviousOpens(log, epoch) <= OLD_EPOCH_RECORDS)
    && (forall epoch: nat | epoch >= s.current.epoch :: PreviousOpens(log, epoch) == 0)
    && (forall e | e in log :: WithinGrace(log, e))
    && (s.previous.Some? ==>
          var previous := s.previous.value;
          && PreviousOpens(log, previous.state.epoch) + previous.remaining == OLD_EPOCH_RECORDS
          && previous.expiresAt >= OLD_EPOCH_GRACE
          && Retired(previous.state.epoch, previous.expiresAt - OLD_EPOCH_GRACE) in log)
  }

  ghost predicate CountersExact(s: Session, log: seq<Entry>) {
    || Overflowed in log
    || (&& s.dataRecords == TrafficCount(log, s.current.epoch)
        && s.plaintextBytes == TrafficBytes(log, s.current.epoch)
        && forall epoch: nat | epoch > s.current.epoch :: TrafficCount(log, epoch) == TrafficBytes(log, epoch) == 0)
  }

  ghost predicate LogInv(s: Session, log: seq<Entry>) {
    && OpenedAtMostOnce(log)
    && LogRecalled(s, log)
    && RetiredInOrder(s, log)
    && BudgetKept(s, log)
    && CountersExact(s, log)
  }

  lemma CountsOfAppend(log: seq<Entry>, e: Entry, epoch: nat)
    ensures PreviousOpens(log + [e], epoch) == PreviousOpens(log, epoch) + if IsPreviousOpen(e, epoch) then 1 else 0
    ensures TrafficCount(log + [e], epoch) == TrafficCount(log, epoch) + if IsTraffic(e, epoch) then 1 else 0
    ensures TrafficBytes(log + [e], epoch) == TrafficBytes(log, epoch) + if IsTraffic(e, epoch) then e.size else 0
  {
    assert (log + [e])[..|log + [e]| - 1] == log;
  }

  lemma CountsOfAppendAll(log: seq<Entry>, e: Entry)
    ensures forall epoch: nat ::
              PreviousOpens(log + [e], epoch) == PreviousOpens(log, epoch) + if IsPreviousOpen(e, epoch) then 1 else 0
    ensures forall epoch: nat ::
              TrafficCount(log + [e], epoch) == TrafficCount(log, epoch) + if IsTraffic(e, epoch) then 1 else 0
    ensures forall epoch: nat ::
              TrafficBytes(log + [e], epoch) == TrafficBytes(log, epoch) + if IsTraffic(e, epoch) then e.size else 0
  {
    forall epoch: nat
      ensures PreviousOpens(log + [e], epoch) == PreviousOpens(log, epoch) + if IsPreviousOpen(e, epoch) then 1 else 0
      ensures TrafficCount(log + [e], epoch) == TrafficCount(log, epoch) + if IsTraffic(e, epoch) then 1 else 0
      ensures TrafficBytes(log + [e], epoch) == TrafficBytes(log, epoch) + if IsTraffic(e, epoch) then e.size else 0
    {
      CountsOfAppend(log, e, epoch);
    }
  }

  /** A longer log still justifies the old entries. */
  lemma GraceOfAppend(log: seq<Entry>, e: Entry)
    requires forall x | x in log :: WithinGrace(log, x)
    requires WithinGrace(log + [e], e)
    ensures forall x | x in log + [e] :: WithinGrace(log + [e], x)
  {
    forall x | x in log + [e]
      ensures WithinGrace(log + [e], x)
    {
      if x in log && x.Opened? && x.position == Previous_ {
        var t: nat :| Retired(x.epoch, t) in log && x.at < t + OLD_EPOCH_GRACE;
        assert Retired(x.epoch, t) in log + [e];
      }
    }
  }

  /** A step that opens nothing and retires nothing. */
  lemma SilentStep(s: Session, s1: Session, log: seq<Entry>)
    requires LogInv(s, log) && Remembers(s, s1) && s1.current.epoch == s.current.epoch
    requires s1.previous == s.previous || s1.previous == None
    requires s1.dataRecords == s.dataRecords && s1.plaintextBytes == s.plaintextBytes
    ensures LogInv(s1, log + [])
  {
    assert log + [] == log;
  }

  lemma QuietStep(s: Session, s1: Session, log: seq<Entry>)
    requires LogInv(s, log) && Quiet(s, s1)
    ensures LogInv(s1, log + [])
  {
    SilentStep(s, s1, log);
  }

  lemma BeginStep(p: Primitives, s: Session, s1: Session, log: seq<Entry>)
    requires LogInv(s, log) && (Begins(p, s, s1) || Quiet(s, s1))
    ensures LogInv(s1, log + [])
  {
    assert Remembers(s, s1);
    SilentStep(s, s1, log);
  }

  lemma OpenStep(p: Primitives, s: Session, s1: Session, log: seq<Entry>, record: Sealed, now: nat,
                 r: Result<OpenedRecord, Error>)
    requires Shape(p, s) && LogInv(s, log) && OpenEffect(s, s1, record, now, r) && r.Ok?
    ensures LogInv(s1, log
                   + [Opened(record.header.kind, record.header.epoch, record.header.number, r.value.position, now,
                             |record.plaintext|)])
  {
    hide OpenedAtMostOnce, LogRecalled, RetiredInOrder, BudgetKept, CountersExact, OpenEffect, Shape;
    var e := Opened(record.header.kind, record.header.epoch, record.header.number, r.value.position, now,
                    |record.plaintext|);
    OpenedOnceMore(s, s1, log, record, now, r, e);
    OpenKeepsOrder(s, s1, log, record, now, r, e);
    OpenKeepsBudget(p, s, s1, log, record, now, r, e);
    OpenKeepsCounters(p, s, s1, log, record, now, r, e);
  }

  /** The entry a successful open leaves in the log. */
  predicate EntryFor(e: Entry, record: Sealed, now: nat, r: Result<OpenedRecord, Error>) {
    && r.Ok?
    && e == Opened(record.header.kind, record.header.epoch, record.header.number, r.value.position, now,
                   |record.plaintext|)
  }

  lemma OpenedOnceMore(s: Session, s1: Session, log: seq<Entry>, record: Sealed, now: nat,
                       r: Result<OpenedRecord, Error>, e: Entry)
    requires OpenedAtMostOnce(log) && LogRecalled(s, log) && OpenEffect(s, s1, record, now, r)
             && EntryFor(e, record, now, r)
    ensures OpenedAtMostOnce(log + [e]) && LogRecalled(s1, log + [e])
  {
    hide Recalls;
    forall i, j | 0 <= i < j < |log + [e]|
      ensures !SameRecord((log + [e])[i], (log + [e])[j])
    {
      if j == |log| && log[i].Opened? {
        assert Recalls(s, log[i].kind, log[i].epoch, log[i].number);
      }
    }
  }

  lemma OpenKeepsOrder(s: Session, s1: Session, log: seq<Entry>, record: Sealed, now: nat,
                       r: Result<OpenedRecord, Error>, e: Entry)
    requires RetiredInOrder(s, log) && OpenEffect(s, s1, record, now, r) && EntryFor(e, record, now, r)
    ensures RetiredInOrder(s1, log + [e])
  {
    hide Remembers, Recalls;
  }

  lemma OpenKeepsBudget(p: Primitives, s: Session, s1: Session, log: seq<Entry>, record: Sealed, now: nat,
                        r: Result<OpenedRecord, Error>, e: Entry)
    requires Shape(p, s) && BudgetKept(s, log) && OpenEffect(s, s1, record, now, r) && EntryFor(e, record, now, r)
    ensures BudgetKept(s1, log + [e])
  {
    hide Remembers, Recalls, PreviousOpens;
    CountsOfAppendAll(log, e);
    if e.position == Previous_ {
      var t := s.previous.value.expiresAt - OLD_EPOCH_GRACE;
      assert Retired(e.epoch, t) in log + [e] && e.at < t + OLD_EPOCH_GRACE;
    }
    GraceOfAppend(log, e);
  }

  lemma OpenKeepsCounters(p: Primitives, s: Session, s1: Session, log: seq<Entry>, record: Sealed, now: nat,
                          r: Result<OpenedRecord, Error>, e: Entry)
    requires Shape(p, s) && CountersExact(s, log) && OpenEffect(s, s1, record, now, r) && EntryFor(e, record, now, r)
    ensures CountersExact(s1, log + [e])
  {
    hide Remembers, Recalls, TrafficCount, TrafficBytes;
    CountsOfAppendAll(log, e);
    assert Overflowed in log ==> Overflowed in log + [e];
  }

  lemma OverflowStep(s: Session, s1: Session, log: seq<Entry>)
    requires LogInv(s, log) && Remembers(s, s1) && s1.current.epoch == s.current.epoch
    requires s1.previous == s.previous || s1.previous == None
    ensures LogInv(s1, log + [Overflowed])
  {
    CountsOfAppendAll(log, Overflowed);
    GraceOfAppend(log, Overflowed);
    assert (log + [Overflowed])[|log|] == Overflowed;
    if s1.previous.Some? {
      assert Retired(s1.previous.value.state.epoch, s1.previous.value.expiresAt - OLD_EPOCH_GRACE) in log
             + [Overflowed];
    }
  }

  lemma SealStep(s: Session, s1: Session, log: seq<Entry>, size: nat, ok: bool)
    requires LogInv(s, log) && Remembers(s, s1) && s1.current.epoch == s.current.epoch
    requires s1.previous == s.previous
    requires s1.dataRecords == s.dataRecords + 1 && s1.plaintextBytes == s.plaintextBytes + size
    ensures LogInv(s1, log + [DataSealed(s.current.epoch, size, ok)])
  {
    var e := DataSealed(s.current.epoch, size, ok);
    CountsOfAppendAll(log, e);
    GraceOfAppend(log, e);
    assert Overflowed in log ==> Overflowed in log + [e];
    if s1.previous.Some? {
      assert Retired(s1.previous.value.state.epoch, s1.previous.value.expiresAt - OLD_EPOCH_GRACE) in log + [e];
    }
  }

  lemma RetireStep(p: Primitives, s: Session, s1: Session, log: seq<Entry>, now: nat)
    requires Shape(p, s) && LogInv(s, log) && Rotates(s, s1, now)
    ensures LogInv(s1, log + [Retired(s.current.epoch, now)])
  {
    hide PreviousOpens, TrafficCount, TrafficBytes, WellKeyed;
    var e := Retired(s.current.epoch, now);
    CountsOfAppendAll(log, e);
    GraceOfAppend(log, e);
    assert Overflowed in log ==> Overflowed in log + [e];
    assert (log + [e])[|log|] == e;
    assert Remembers(s, s1);
  }

  lemma TrafficRemembers(s: Session, s1: Session)
    requires Quiet(s, s1.(dataRecords := s.dataRecords, plaintextBytes := s.plaintextBytes))
    ensures Remembers(s, s1) && s1.current.epoch == s.current.epoch && s1.previous == s.previous
  {
  }

  /** Every call, whatever its arguments, keeps the shape of the session and the properties of its log. */
  lemma CallKeepsInv(p: Primitives, s: Session, log: seq<Entry>, call: Call)
    requires Shape(p, s) && LogInv(s, log)
    ensures Shape(p, Apply(p, s, call).0)
    ensures LogInv(Apply(p, s, call).0, log + Apply(p, s, call).1)
  {
    hide Shape, LogInv, Quiet, Begins, Rotates, OpenEffect;
    hide Open, SealData, SealControl, AcceptUpdateInit, AcceptUpdateCommit, AcceptFullRekeyInit, AcceptFullRekeyConfirm;
    hide RequestUpdateIfDue, PathChallenge, AcceptPathResponse;
    var s1 := Apply(p, s, call).0;
    match call
    case CallOpen(record, now) =>
      OpenCallEffect(p, s, record, now);
      var r := Open(s, record, now).1;
      if r.Ok? {
        OpenStep(p, s, s1, log, record, now, r);
      } else if IsOverflow(r.error) {
        OverflowStep(s, s1, log);
      } else {
        SilentStep(s, s1, log);
      }
    case CallSealData(plaintext, padded) =>
      SealDataEffect(p, s, plaintext, padded);
      var r := SealData(s, plaintext, padded).1;
      TrafficRemembers(s, s1);
      if r.Err? && IsOverflow(r.error) {
        OverflowStep(s, s1, log);
      } else {
        SealStep(s, s1, log, |plaintext|, r.Ok?);
      }
    case CallUpdateInit(record, body, now) =>
      UpdateInitEffect(p, s, record, body, now);
      BeginStep(p, s, s1, log);
    case CallFullInit(record, body, clientKey, serverKey, ephemeral, now) =>
      FullInitEffect(p, s, record, body, clientKey, serverKey, ephemeral, now);
      BeginStep(p, s, s1, log);
    case CallUpdateCommit(record, body, now) =>
      CommitEffect(p, s, record, body, now);
      if AcceptUpdateCommit(p, s, record, body, now).1.Ok? {
        RetireStep(p, s, s1, log, now);
      } else {
        SilentStep(s, s1, log);
      }
    case CallFullConfirm(record, body, now) =>
      CommitEffect(p, s, record, body, now);
      if AcceptFullRekeyConfirm(p, s, record, body, now).1.Ok? {
        RetireStep(p, s, s1, log, now);
      } else {
        SilentStep(s, s1, log);
      }
    case CallSealControl(plaintext, padded) =>
      SealControlIsQuiet(p, s, plaintext, padded);
      QuietStep(s, s1, log);
    case CallRequestUpdate(now) =>
      RequestUpdateIsQuiet(p, s, now);
      QuietStep(s, s1, log);
    case CallPathChallenge(migrationSecret, carrierId, challenge) =>
      PathCallsAreQuiet(p, s, migrationSecret, carrierId, challenge,
                        Sealed(HeaderFor(s.current.s2cData, 0, [], false), s.transcript, []), [], s.transcript);
      QuietStep(s, s1, log);
    case CallPathResponse(record, body, carrierId, expected) =>
      PathCallsAreQuiet(p, s, [], carrierId, [], record, body, expected);
      QuietStep(s, s1, log);
  }

  lemma {:induction false} RunKeepsInv(p: Primitives, start: Session, calls: seq<Call>)
    requires Shape(p, start) && LogInv(start, [])
    ensures Shape(p, Run(p, start, calls).0) && LogInv(Run(p, start, calls).0, Run(p, start, calls).1)
    decreases |calls|
  {
    if calls != [] {
      RunKeepsInv(p, start, calls[..|calls| - 1]);
      var (s, log) := Run(p, start, calls[..|calls| - 1]);
      CallKeepsInv(p, s, log, calls[|calls| - 1]);
    }
  }

  lemma NewSessionStartsWell(p: Primitives, id: Bytes, secret: Digest, handshakeTranscript: Digest, now: nat)
    ensures Shape(p, New(p, id, secret, handshakeTranscript, now))
    ensures LogInv(New(p, id, secret, handshakeTranscript, now), [])
  {
    FreshEpochIsWellKeyed(p, id, 0, secret);
  }

  // ---- Main results ----

  /** In every reachable state the pending epoch is the next one, the previous epoch the one before,
      a pending epoch means an update was requested, an update is requested exactly while a deadline is
      set, and every layer's keys, kind and epoch belong to the state that holds it. */
  lemma ReachableShape(p: Primitives, id: Bytes, secret: Digest, handshakeTranscript: Digest, now: nat,
                       calls: seq<Call>)
    ensures Shape(p, Run(p, New(p, id, secret, handshakeTranscript, now), calls).0)
  {
    NewSessionStartsWell(p, id, secret, handshakeTranscript, now);
    RunKeepsInv(p, New(p, id, secret, handshakeTranscript, now), calls);
  }

  /** Epochs are retired in increasing order and only once, and none that was retired is ever current again. */
  lemma EpochsNeverComeBack(p: Primitives, id: Bytes, secret: Digest, handshakeTranscript: Digest, now: nat,
                            calls: seq<Call>)
    ensures var (s, log) := Run(p, New(p, id, secret, handshakeTranscript, now), calls); RetiredInOrder(s, log)
  {
    NewSessionStartsWell(p, id, secret, handshakeTranscript, now);
    RunKeepsInv(p, New(p, id, secret, handshakeTranscript, now), calls);
  }

  /** Over a whole session -- records repeated, reordered, forged, over any carrier, across any number
      of rekeys -- no (kind, epoch, number) is opened successfully twice. */
  lemma EachRecordOpensAtMostOnce(p: Primitives, id: Bytes, secret: Digest, handshakeTranscript: Digest, now: nat,
                                  calls: seq<Call>)
    ensures OpenedAtMostOnce(Run(p, New(p, id, secret, handshakeTranscript, now), calls).1)
  {
    NewSessionStartsWell(p, id, secret, handshakeTranscript, now);
    RunKeepsInv(p, New(p, id, secret, handshakeTranscript, now), calls);
  }

  /** After each retirement at most 128 records of the old epoch are opened, none of them 3 s or more
      after it; epochs retire once each, in increasing order. */
  lemma OldEpochBudget(p: Primitives, id: Bytes, secret: Digest, handshakeTranscript: Digest, now: nat,
                       calls: seq<Call>, epoch: nat)
    ensures var (s, log) := Run(p, New(p, id, secret, handshakeTranscript, now), calls);
            && PreviousOpens(log, epoch) <= OLD_EPOCH_RECORDS
            && (forall e | e in log :: WithinGrace(log, e))
            && RetiredInOrder(s, log)
  {
    NewSessionStartsWell(p, id, secret, handshakeTranscript, now);
    RunKeepsInv(p, New(p, id, secret, handshakeTranscript, now), calls);
  }

  /** The two traffic counters that decide when a rekey is due are exact: as long as neither overflows
      they are the number and the total plaintext of the data records sealed or opened under the current
      epoch. A data record the sender refuses after counting it is counted too. */
  lemma TrafficCountersExact(p: Primitives, id: Bytes, secret: Digest, handshakeTranscript: Digest, now: nat,
                             calls: seq<Call>)
    ensures var (s, log) := Run(p, New(p, id, secret, handshakeTranscript, now), calls);
            Overflowed !in log ==>
              s.dataRecords == TrafficCount(log, s.current.epoch)
                && s.plaintextBytes == TrafficBytes(log, s.current.epoch)
  {
    NewSessionStartsWell(p, id, secret, handshakeTranscript, now);
    RunKeepsInv(p, New(p, id, secret, handshakeTranscript, now), calls);
  }
}
