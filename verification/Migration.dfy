/** When a new carrier takes a session over. */
module Migration {
  import opened Prelude
  import opened Record
  import opened Rekey
  import opened RekeyProofs
  import opened ServerSession
  import Safety = RekeySafety

  /** The tag a path response carries, over the transcript after the challenge. */
  function PathTag(p: Primitives, id: Bytes, path: Path, transcript: Digest): Digest {
    p.hmac(path.migrationSecret, Ascii("RekaSerdoba/1 path response") + id + path.carrierId + path.challenge
           + transcript)
  }

  /** A carrier is challenged exactly while no rekey is pending, the challenge fits a record and the control numbers
      last; and it takes over if and only if its answer opens in the current epoch and is one path response with its
      identifier and the tag. */
  lemma MigrationIff(p: Primitives, s: State, path: Path, answer: Option<PathAnswer>)
    requires Safety.Shape(p, s.crypto) && |path.carrierId| == 16
    ensures var (crypto, r) := PathChallenge(p, s.crypto, path.migrationSecret, path.carrierId, path.challenge);
            && (r.Ok? <==>
                  && s.crypto.pending.None? && s.crypto.current.s2cControl.next < MAX_RECORDS_PER_EPOCH
                  && 4 + 16 + |path.challenge| + TAG_LEN <= MAX_CIPHERTEXT_LEN)
            && (r.Ok? ==>
                  && IsFrame(r.value.0, Frame(0x0C, 0, path.carrierId + path.challenge))
                  && crypto.transcript == TranscriptNext(p, s.crypto.transcript, r.value.0))
            && (Migrate(p, s, path, answer).1 <==>
                  && r.Ok? && answer.Some?
                  && OpensAt(crypto, answer.value.record, answer.value.arrived, Current)
                  && IsFrame(answer.value.record,
                             Frame(0x0D, 0, path.carrierId + PathTag(p, s.crypto.id, path, crypto.transcript))))
  {
    hide Open, Frames, Safety.Shape, TranscriptNext, PathChallenge, TakeAnswer, Ascii, OpensAt, IsFrame;
    ChallengeIff(p, s.crypto, path);
    var (crypto, r) := PathChallenge(p, s.crypto, path.migrationSecret, path.carrierId, path.challenge);
    if r.Ok? && answer.Some? {
      Safety.PathCallsAreQuiet(p, s.crypto, path.migrationSecret, path.carrierId, path.challenge, answer.value.record,
                               [], s.crypto.transcript);
      AnswerIff(p, s.(crypto := crypto), path.carrierId, r.value.1, answer.value);
    }
  }

  lemma ChallengeIff(p: Primitives, s: Session, path: Path)
    requires Safety.Shape(p, s) && |path.carrierId| == 16
    ensures var (s1, r) := PathChallenge(p, s, path.migrationSecret, path.carrierId, path.challenge);
            && (r.Ok? <==>
                  && s.pending.None? && s.current.s2cControl.next < MAX_RECORDS_PER_EPOCH
                  && 4 + 16 + |path.challenge| + TAG_LEN <= MAX_CIPHERTEXT_LEN)
            && (r.Ok? ==>
                  && IsFrame(r.value.0, Frame(0x0C, 0, path.carrierId + path.challenge))
                  && s1.transcript == TranscriptNext(p, s.transcript, r.value.0)
                  && r.value.1 == PathTag(p, s.id, path, s1.transcript))
  {
    hide TranscriptNext, FrameBytes, Ascii, FramesBytes;
    var f := Frame(0x0C, 0, path.carrierId + path.challenge);
    assert |FrameBytes(f)| == 4 + |f.body| by { FrameLength(f); }
    if |f.body| < U16_LIMIT {
      OneFramePrinted(f);
      ParsersAgree([f], Control);
    }
  }

  lemma FrameLength(f: Frame)
    ensures |FrameBytes(f)| == 4 + |f.body|
  {
  }

  lemma AnswerIff(p: Primitives, s: State, carrierId: Bytes, expected: Digest, answer: PathAnswer)
    requires Safety.Shape(p, s.crypto) && |carrierId| == 16
    ensures TakeAnswer(p, s, carrierId, expected, answer).1 <==>
              && OpensAt(s.crypto, answer.record, answer.arrived, Current)
              && IsFrame(answer.record, Frame(0x0D, 0, carrierId + expected))
  {
    hide Open, Frames, Safety.Shape, TranscriptNext, OpensAt, AcceptPathResponse;
    var record := answer.record;
    OpensIff(p, s.crypto, record, answer.arrived, Current);
    var (after, opening) := Open(s.crypto, record, answer.arrived);
    if opening.Ok? {
      OpenedPlainly(s.crypto, record, answer.arrived);
      var frames := Frames(record.plaintext, Control);
      if frames.Ok? && |frames.value| == 1 { assert frames.value == [frames.value[0]]; }
      var body := ResponseBody(opening.value);
      if body.Some? { BodyIff(p, after, record, body.value, carrierId, expected); }
    }
  }

  lemma BodyIff(p: Primitives, s: Session, record: Sealed, body: Bytes, carrierId: Bytes, expected: Digest)
    requires |carrierId| == 16
    ensures AcceptPathResponse(p, s, record, body, carrierId, expected).1.Ok? <==> body == carrierId + expected
  {
    hide TranscriptNext;
    if |body| == 48 { assert body == body[..16] + body[16..]; }
    assert (carrierId + expected)[..16] == carrierId && (carrierId + expected)[16..] == expected;
  }
}
