/** The answers a session gives by itself: PONG to a PING, a probe's reply to a probe and a keepalive to a
    keepalive, each with what it answers inside, and which frames a client may not send. */
module Echoes {
  import opened Prelude
  import opened Record
  import opened Rekey
  import opened ServerRecords
  import opened ServerSession
  import Safety = RekeySafety
  import Limits = Shaping
  import opened Reassembly
  import opened RekeyProofs

  /** The answer to one frame, if it is answered. */
  function AnswerTo(kind: RecordKind, f: Frame): Option<Frame> {
    match (kind, f.frameType)
    case (Control, 0x02) => Some(Frame(0x03, 0, f.body))
    case (Data, 0x04) => Some(Frame(0x04, 0, []))
    case (Data, 0x05) => Some(Frame(0x06, 0, f.body))
    case _ => None
  }

  predicate Closes(frames: seq<Frame>) {
    exists f | f in frames :: f.frameType == 0x12
  }

  /** The answers to the frames of a record, in order; after a CLOSE no frame is answered. */
  function Answers(kind: RecordKind, frames: seq<Frame>): seq<Frame> {
    if frames == [] then []
    else
      var n := |frames| - 1;
      Answers(kind, frames[..n])
      + (if kind == Control && Closes(frames[..n]) then [] else AnswerList(kind, frames[n]))
  }

  function AnswerList(kind: RecordKind, f: Frame): seq<Frame> {
    match AnswerTo(kind, f)
    case Some(answer) => [answer]
    case None => []
  }

  /** The records that leave in a step. */
  function Sent(effects: seq<Effect>): seq<Sealed> {
    if effects == [] then []
    else
      var last := effects[|effects| - 1];
      Sent(effects[..|effects| - 1]) + (if last.Send? then [last.record] else [])
  }

  /** A record of one frame, for either parser. */
  ghost predicate Carries(r: Sealed, kind: RecordKind, f: Frame) {
    r.header.kind == kind && Frames(r.plaintext, kind) == Ok([f]) && ClientFrames(r.plaintext) == Ok([f])
  }

  /** Records that carry the first of the answers, one each. */
  ghost predicate Begin(records: seq<Sealed>, kind: RecordKind, answers: seq<Frame>) {
    |records| <= |answers| && forall i | 0 <= i < |records| :: Carries(records[i], kind, answers[i])
  }

  lemma BeginEmpty(kind: RecordKind)
    ensures Begin([], kind, [])
  {
  }

  lemma BeginSplits(a: seq<Sealed>, b: seq<Sealed>, kind: RecordKind, first: seq<Frame>, second: seq<Frame>)
    requires Begin(a, kind, first)
    ensures |a| == |first| && Begin(b, kind, second) ==> Begin(a + b, kind, first + second)
    ensures Begin(a, kind, first + second)
  {
    hide Carries;
  }

  /** A data frame that ends no session by its type, flags or size. */
  predicate Allowed(f: Frame) {
    f.frameType == 0x03
    || (f.flags == 0 && f.frameType != 0x02 && (f.frameType == 0x04 ==> f.body == [])
        && (f.frameType == 0x05 || f.frameType == 0x06 ==> |f.body| <= 64))
  }

  /** An error that blames a data frame, not the traffic. */
  predicate BlamesFrame(e: SessionError) {
    e.DataFlags? || e.Ipv6Disabled? || e.KeepaliveNotEmpty? || e.ProbeTooLarge? || e.ProbeReplyTooLarge?
  }

  lemma {:induction false} SentSplits(a: seq<Effect>, b: seq<Effect>)
    ensures Sent(a + b) == Sent(a) + Sent(b)
    decreases |b|
  {
    if b == [] {
      assert a + b == a;
    } else {
      assert (a + b)[..|a + b| - 1] == a + b[..|b| - 1];
      SentSplits(a, b[..|b| - 1]);
    }
  }

  lemma OneSent(e: Effect)
    ensures Sent([]) == [] && Sent([e]) == if e.Send? then [e.record] else []
  {
    assert [e][..0] == [];
  }

  lemma OneFrameCarried(r: Sealed, kind: RecordKind, f: Frame)
    requires r.header.kind == kind && r.plaintext == FrameBytes(f) && |f.body| < U16_LIMIT
    requires Known(kind, f.frameType) && f.flags == 0
    ensures Carries(r, kind, f)
  {
    hide FrameBytes;
    assert FramesBytes([f]) == FrameBytes(f) by { assert FramesBytes([]) == []; }
    ParsersAgree([f], kind);
  }

  lemma {:induction false} BodiesFit(plaintext: Bytes, kind: RecordKind)
    ensures var r := Frames(plaintext, kind);
            r.Ok? ==> forall f | f in r.value :: 4 + |f.body| <= |plaintext| && |f.body| < U16_LIMIT
    decreases |plaintext|
  {
    if |plaintext| >= 4 {
      var length := FromBigEndian(plaintext[2..4]);
      BigEndianEncodes(plaintext[2..4]);
      if 4 + length <= |plaintext| { BodiesFit(plaintext[4 + length..], kind); }
    }
  }

  // ---- Data records ----

  lemma SealedAs(s: State, f: Frame)
    requires s.crypto.current.s2cData.kind == Data && |f.body| < U16_LIMIT
    requires Known(Data, f.frameType) && f.flags == 0
    ensures var step := SealOne(s, FrameBytes(f));
            && step.state.crypto.current.s2cData.kind == Data
            && Begin(Sent(step.effects), Data, [f])
            && (step.error.None? ==> |Sent(step.effects)| == 1)
            && (step.error.Some? ==> !BlamesFrame(step.error.value))
  {
    hide FrameBytes, Carries;
    var step := SealOne(s, FrameBytes(f));
    OneSent(Deliver_([]));
    if step.error.None? {
      OneSent(step.effects[0]);
      OneFrameCarried(step.effects[0].record, Data, f);
    }
  }

  /** Packets and their fragments are not answered. */
  lemma PassesOn(s: State, source: Bytes, f: Frame, clock: Reading)
    requires f.frameType == 0x01 || f.frameType == 0x03
    ensures var step := DataFrame(s, source, f, clock);
            && step.state.crypto == s.crypto && Sent(step.effects) == []
            && (step.error.None? ==> Allowed(f))
            && (step.error.Some? && BlamesFrame(step.error.value) ==> !Allowed(f))
  {
    hide PushOne, CheckIpv4, Limits.ReservePolicy;
    var step := DataFrame(s, source, f, clock);
    if step.effects != [] {
      assert step.effects == [step.effects[0]];
      OneSent(step.effects[0]);
    }
  }

  lemma OneDataFrame(s: State, source: Bytes, f: Frame, clock: Reading)
    requires s.crypto.current.s2cData.kind == Data && |f.body| < U16_LIMIT
    ensures var step := DataFrame(s, source, f, clock);
            var answers := AnswerList(Data, f);
            && step.state.crypto.current.s2cData.kind == Data
            && Begin(Sent(step.effects), Data, answers)
            && (step.error.None? ==> |Sent(step.effects)| == |answers| && Allowed(f))
            && (step.error.Some? && BlamesFrame(step.error.value) ==> !Allowed(f))
  {
    hide Pass, PushOne, FrameBytes, Carries, SealData;
    if f.frameType == 0x01 || f.frameType == 0x03 {
      PassesOn(s, source, f, clock);
    } else if AnswerTo(Data, f).Some? {
      SealedAs(s, AnswerTo(Data, f).value);
    }
  }

  lemma {:induction false} DataAnswers(s: State, source: Bytes, frames: seq<Frame>, clock: nat -> Reading)
    requires s.crypto.current.s2cData.kind == Data && forall f | f in frames :: |f.body| < U16_LIMIT
    ensures var step := DataFrames(s, source, frames, clock);
            && step.state.crypto.current.s2cData.kind == Data
            && Begin(Sent(step.effects), Data, Answers(Data, frames))
            && (step.error.None? ==>
                  |Sent(step.effects)| == |Answers(Data, frames)| && forall f | f in frames :: Allowed(f))
            && (step.error.Some? && BlamesFrame(step.error.value) ==> exists f | f in frames :: !Allowed(f))
    decreases |frames|
  {
    hide DataFrame, AnswerList, Allowed, BlamesFrame, Begin;
    BeginEmpty(Data);
    if frames != [] {
      var n := |frames| - 1;
      DataAnswers(s, source, frames[..n], clock);
      var before := DataFrames(s, source, frames[..n], clock);
      if before.error.None? {
        OneDataFrame(before.state, source, frames[n], clock(n));
        var step := DataFrame(before.state, source, frames[n], clock(n));
        SentSplits(before.effects, step.effects);
        BeginSplits(Sent(before.effects), Sent(step.effects), Data, Answers(Data, frames[..n]),
                    AnswerList(Data, frames[n]));
        assert frames == frames[..n] + [frames[n]];
      } else {
        BeginSplits(Sent(before.effects), [], Data, Answers(Data, frames[..n]), AnswerList(Data, frames[n]));
      }
    }
  }

  // ---- Control records ----

  /** The sender still has so many numbers in its epoch; none are needed for nothing. */
  predicate Room(s: Sender, records: nat) {
    records == 0 || s.next + records <= MAX_RECORDS_PER_EPOCH
  }

  lemma OneControlFrame(p: Primitives, s: State, record: Sealed, position: Position, f: Frame, env: Env, now: nat)
    requires s.crypto.current.s2cControl.kind == Control && 4 + |f.body| + TAG_LEN <= MAX_CIPHERTEXT_LEN
    requires !SecurityCritical(f)
    ensures var (step, closes) := ControlFrame(p, s, record, position, f, env, now);
            var answers := AnswerList(Control, f);
            var before, after := s.crypto.current.s2cControl, step.state.crypto.current.s2cControl;
            && after.kind == Control
            && Begin(Sent(step.effects), Control, answers)
            && (step.error.None? <==> Room(before, |answers|))
            && (step.error.None? ==>
                  && |Sent(step.effects)| == |answers| && after.next == before.next + |answers|
                  && (closes <==> f.frameType == 0x12))
  {
    hide FrameBytes, Carries;
    OneSent(Deliver_([]));
    assert |FrameBytes(Frame(0x03, 0, f.body))| == 4 + |f.body| by { FrameLayout(Frame(0x03, 0, f.body), []); }
    var step := ControlFrame(p, s, record, position, f, env, now).0;
    if step.effects != [] {
      assert step.effects == [step.effects[0]];
      OneSent(step.effects[0]);
      OneFrameCarried(step.effects[0].record, Control, Frame(0x03, 0, f.body));
    }
  }

  lemma {:induction false} ControlAnswers(p: Primitives, s: State, record: Sealed, position: Position,
                                          frames: seq<Frame>, env: Env, now: nat)
    requires s.crypto.current.s2cControl.kind == Control
    requires forall f | f in frames :: 4 + |f.body| + TAG_LEN <= MAX_CIPHERTEXT_LEN && !SecurityCritical(f)
    ensures var (step, closed) := ControlFrames(p, s, record, position, frames, env, now);
            var answers := Answers(Control, frames);
            var before, after := s.crypto.current.s2cControl, step.state.crypto.current.s2cControl;
            && after.kind == Control
            && Begin(Sent(step.effects), Control, answers)
            && (step.error.None? <==> Room(before, |answers|))
            && (step.error.None? ==>
                  && |Sent(step.effects)| == |answers| && after.next == before.next + |answers|
                  && (closed <==> Closes(frames)))
    decreases |frames|
  {
    hide ControlFrame, AnswerList, Begin, SecurityCritical;
    BeginEmpty(Control);
    if frames != [] {
      var n := |frames| - 1;
      ControlAnswers(p, s, record, position, frames[..n], env, now);
      var (before, closed) := ControlFrames(p, s, record, position, frames[..n], env, now);
      assert frames == frames[..n] + [frames[n]];
      if before.error.None? && !closed {
        OneControlFrame(p, before.state, record, position, frames[n], env, now);
        var step := ControlFrame(p, before.state, record, position, frames[n], env, now).0;
        SentSplits(before.effects, step.effects);
        BeginSplits(Sent(before.effects), Sent(step.effects), Control, Answers(Control, frames[..n]),
                    AnswerList(Control, frames[n]));
      } else {
        BeginSplits(Sent(before.effects), [], Control, Answers(Control, frames[..n]), AnswerList(Control, frames[n]));
        assert Answers(Control, frames[..n]) + [] == Answers(Control, frames[..n]);
      }
    }
  }

  // ---- Main result ----

  /** What one record from the client is answered with, whatever frames it holds beside: the records that leave are
      the answers to its frames, one frame each, in order and with what they answer inside; all of them, unless the
      session ends. Answering a control record fails only when the numbers of the epoch run out, and a data record
      is blamed for its frames exactly when one is not allowed and no other error came first. */
  lemma RecordIsAnswered(p: Primitives, s: State, source: Bytes, record: Sealed, context: Context)
    requires Safety.Shape(p, s.crypto)
    requires Open(s.crypto, record, context.arrived).1.Ok? && Frames(record.plaintext, record.header.kind).Ok?
    ensures var (step, closed) := Inbound(p, s, source, record, context);
            var kind := record.header.kind;
            var frames := Frames(record.plaintext, kind).value;
            var sent, answers := Sent(step.effects), Answers(kind, frames);
            && (kind == Data || (forall f | f in frames :: !SecurityCritical(f)) ==>
                  Begin(sent, kind, answers) && (step.error.None? ==> |sent| == |answers|))
            && (kind == Data ==>
                  && (step.error.None? ==> forall f | f in frames :: Allowed(f))
                  && (step.error.Some? && BlamesFrame(step.error.value) ==> exists f | f in frames :: !Allowed(f)))
            && (kind == Control && (forall f | f in frames :: !SecurityCritical(f)) ==>
                  && (step.error.None? <==> Room(s.crypto.current.s2cControl, |answers|))
                  && (step.error.None? ==> (closed <==> Closes(frames))))
  {
    hide Safety.Shape, Open, DataFrames, ControlFrames, Frames, SecurityCritical, Answers, Begin, Allowed, BlamesFrame,
         Closes, Room;
    OpenKeepsChecks(s.crypto, record, context.arrived);
    OpenedAsSealed(p, s.crypto, record, context.arrived);
    var (crypto, r) := Open(s.crypto, record, context.arrived);
    var s1 := s.(crypto := crypto);
    var frames := Frames(record.plaintext, record.header.kind).value;
    BodiesFit(record.plaintext, record.header.kind);
    if record.header.kind == Data {
      DataAnswers(s1, source, frames, context.clock);
    } else if forall f | f in frames :: !SecurityCritical(f) {
      ControlAnswers(p, s1, record, r.value.position, frames, context.env, context.now);
    }
    var contents := Contents(p, s1, source, record, r.value, context).0;
    assert [] + contents.effects == contents.effects;
  }

  lemma OpenedAsSealed(p: Primitives, s: Session, record: Sealed, now: nat)
    requires Safety.Shape(p, s) && Open(s, record, now).1.Ok?
    ensures var (s1, r) := Open(s, record, now);
            && r.value.plaintext == record.plaintext && r.value.header == record.header
            && |record.plaintext| + TAG_LEN <= MAX_CIPHERTEXT_LEN
            && s1.current.s2cControl == s.current.s2cControl && s1.current.s2cControl.kind == Control
            && s1.current.s2cData == s.current.s2cData && s1.current.s2cData.kind == Data
  {
    hide OpenAt;
    hide TrafficKey;
    OpenedPlain(s, record, now);
  }

  lemma OpenedPlain(s: Session, record: Sealed, now: nat)
    requires Open(s, record, now).1.Ok?
    ensures |record.plaintext| + TAG_LEN <= MAX_CIPHERTEXT_LEN
    ensures Open(s, record, now).1.value.plaintext == record.plaintext
    ensures Open(s, record, now).1.value.header == record.header
  {
  }

  // ---- The timer ----

  /** An update is due: the epoch is 600 s old, or has carried 2^20 data records or 2^30 bytes. */
  predicate Due(s: Session, now: nat) {
    now >= s.epochStarted + 600_000_000_000 || s.dataRecords >= 1_048_576 || s.plaintextBytes >= 1_073_741_824
  }

  /** The timer ends the session exactly when an update under way has timed out or one that is due cannot be asked for;
      it sends something exactly when it asks, and then the request alone. */
  lemma TimerIff(p: Primitives, s: State, now: nat)
    requires Safety.Shape(p, s.crypto)
    ensures var step := Poll(p, s, now);
            var late := s.crypto.updateDeadline.Some? && now >= s.crypto.updateDeadline.value;
            var asks := !late && s.crypto.pending.None? && !s.crypto.updateRequested && Due(s.crypto, now);
            var numbers := s.crypto.current.s2cControl.next < MAX_RECORDS_PER_EPOCH;
            && (step.error.Some? <==> late || (asks && !numbers))
            && (step.effects != [] <==> asks && numbers)
            && (step.effects != [] ==>
                  && |step.effects| == 1 && step.effects[0].Send?
                  && IsFrame(step.effects[0].record, Frame(0x04, 0, BigEndian(s.crypto.current.epoch, 4))))
  {
    hide Safety.Shape, RequestUpdateIfDue, IsFrame, BigEndian;
    AsksIff(p, s.crypto, now);
    RequestErrs(p, s.crypto, now);
  }

  lemma RequestErrs(p: Primitives, s: Session, now: nat)
    ensures RequestUpdateIfDue(p, s, now).1.Err? ==>
              || RequestUpdateIfDue(p, s, now).1 == Err(UpdateTimedOut)
              || (s.pending.None? && !s.updateRequested && Due(s, now)
                  && s.current.s2cControl.next >= MAX_RECORDS_PER_EPOCH)
    ensures s.pending.None? && !s.updateRequested && Due(s, now) && s.current.s2cControl.next >= MAX_RECORDS_PER_EPOCH
            ==> RequestUpdateIfDue(p, s, now).1.Err?
  {
    hide TranscriptNext, BigEndian;
    var f := Frame(0x04, 0, BigEndian(s.current.epoch, 4));
    assert |FrameBytes(f)| == 8;
  }
}
