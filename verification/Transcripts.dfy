/** What the running transcript of the control channel stands for: at either end it is the hash chain over the records
    that were sent and accepted, so two ends with one transcript have one history. */
module Transcripts {
  import opened Prelude
  import opened Record
  import opened Rekey
  import opened ClientCore
  import opened RekeyProofs
  import Client_ = ClientProofs
  import ClientSafety
  import Safety = RekeySafety
  import ServerNonces
  import Records = ServerRecords
  import Keys_ = KeySeparation

  /** A record as it is sent: the 31 octets of its header, and the ciphertext with the header as additional data. */
  function OnTheWire(p: Primitives, r: Sealed): Bytes {
    EncodeHeader(r.header) + p.aead(r.key, r.header.number, EncodeHeader(r.header), r.plaintext)
  }

  /** What is hashed when the last of these records enters the transcript. */
  function LastInput(p: Primitives, start: Digest, records: seq<Sealed>): Bytes
    requires records != []
    decreases |records|, 0
  {
    var before: Bytes := Chain(p, start, records[..|records| - 1]);
    before + OnTheWire(p, records[|records| - 1])
  }

  /** The transcript after the records. */
  function Chain(p: Primitives, start: Digest, records: seq<Sealed>): Digest
    decreases |records|, 1
  {
    if records == [] then start else p.sha256(LastInput(p, start, records))
  }

  /** Two different inputs met on the way have one hash. */
  ghost predicate Collide(p: Primitives, s: Digest, a: seq<Sealed>, t: Digest, b: seq<Sealed>) {
    exists i, j | 0 < i <= |a| && 0 < j <= |b| ::
      LastInput(p, s, a[..i]) != LastInput(p, t, b[..j]) && Chain(p, s, a[..i]) == Chain(p, t, b[..j])
  }

  predicate SameOnTheWire(p: Primitives, a: Sealed, b: Sealed) {
    OnTheWire(p, a) == OnTheWire(p, b)
  }

  /** Records that look alike on the wire have one header, and one ciphertext. */
  lemma WireTells(p: Primitives, a: Sealed, b: Sealed)
    requires a.header.Valid() && b.header.Valid() && OnTheWire(p, a) == OnTheWire(p, b)
    ensures a.header == b.header
    ensures p.aead(a.key, a.header.number, EncodeHeader(a.header), a.plaintext)
            == p.aead(b.key, b.header.number, EncodeHeader(b.header), b.plaintext)
  {
    var x := p.aead(a.key, a.header.number, EncodeHeader(a.header), a.plaintext);
    var y := p.aead(b.key, b.header.number, EncodeHeader(b.header), b.plaintext);
    HeaderRoundTrip(a.header, x);
    HeaderRoundTrip(b.header, y);
    HeaderLayout(a.header, x);
    HeaderLayout(b.header, y);
  }

  lemma {:induction false} ChainEnds(p: Primitives, s: Digest, a: seq<Sealed>, t: Digest, b: seq<Sealed>)
    requires |a| <= |b| && Chain(p, s, a) == Chain(p, t, b) && !Collide(p, s, a, t, b)
    ensures var k := |b| - |a|;
            s == Chain(p, t, b[..k]) && forall i | 0 <= i < |a| :: SameOnTheWire(p, a[i], b[k + i])
    decreases |a|
  {
    hide OnTheWire;
    if a == [] {
      assert b[..|b|] == b;
    } else {
      var n, m := |a| - 1, |b| - 1;
      assert a[..|a|] == a && b[..|b|] == b;
      assert LastInput(p, s, a) == LastInput(p, t, b);
      LastRecord(p, s, a, t, b);
      if Collide(p, s, a[..n], t, b[..m]) { CollideGrows(p, s, a, n, t, b, m); }
      ChainEnds(p, s, a[..n], t, b[..m]);
      assert b[..m][..m - n] == b[..m - n];
    }
  }

  lemma LastRecord(p: Primitives, s: Digest, a: seq<Sealed>, t: Digest, b: seq<Sealed>)
    requires a != [] && b != [] && LastInput(p, s, a) == LastInput(p, t, b)
    ensures Chain(p, s, a[..|a| - 1]) == Chain(p, t, b[..|b| - 1])
    ensures SameOnTheWire(p, a[|a| - 1], b[|b| - 1])
  {
    hide OnTheWire, Chain;
    var x: Bytes, y: Bytes := Chain(p, s, a[..|a| - 1]), Chain(p, t, b[..|b| - 1]);
    var u: Bytes, v: Bytes := OnTheWire(p, a[|a| - 1]), OnTheWire(p, b[|b| - 1]);
    assert (x + u)[..32] == x && (y + v)[..32] == y && (x + u)[32..] == u && (y + v)[32..] == v;
  }

  lemma CollideGrows(p: Primitives, s: Digest, a: seq<Sealed>, n: nat, t: Digest, b: seq<Sealed>, m: nat)
    requires n <= |a| && m <= |b| && Collide(p, s, a[..n], t, b[..m])
    ensures Collide(p, s, a, t, b)
  {
    hide LastInput, Chain;
    var x, y := a[..n], b[..m];
    var i, j :| 0 < i <= n && 0 < j <= m &&
                LastInput(p, s, x[..i]) != LastInput(p, t, y[..j]) && Chain(p, s, x[..i]) == Chain(p, t, y[..j]);
    assert x[..i] == a[..i] && y[..j] == b[..j];
  }

  // ---- What enters the transcript ----

  lemma {:induction false} ChainSplits(p: Primitives, s: Digest, a: seq<Sealed>, b: seq<Sealed>)
    ensures Chain(p, s, a + b) == Chain(p, Chain(p, s, a), b)
    decreases |b|
  {
    hide OnTheWire;
    if b == [] {
      assert a + b == a;
    } else {
      assert (a + b)[..|a + b| - 1] == a + b[..|b| - 1];
      ChainSplits(p, s, a, b[..|b| - 1]);
    }
  }

  lemma ChainSteps(p: Primitives, s: Digest, r: Sealed, q: Sealed)
    ensures Chain(p, s, []) == s
    ensures Chain(p, s, [r]) == TranscriptNext(p, s, r)
    ensures Chain(p, s, [r, q]) == TranscriptNext(p, TranscriptNext(p, s, r), q)
  {
    assert [r][..0] == [] && [r, q][..1] == [r];
  }

  /** The record handed to this call proves what its message has to prove; so it enters the transcript. */
  predicate Convinces(p: Primitives, s: Session, call: Safety.Call) {
    match call
    case CallUpdateInit(_, body, _) => s.pending.None? && ProvesInit(p, s, body)
    case CallFullInit(_, body, clientKey, serverKey, ephemeral, _) =>
      s.pending.None? && ProvesFullInit(p, s, Records.Env(clientKey, serverKey, ephemeral), body)
    case CallUpdateCommit(_, body, _) =>
      s.pending.Some? && s.pending.value.proof.Routine? && body == FinishBody(p, s.pending.value)
    case CallFullConfirm(_, body, _) =>
      s.pending.Some? && s.pending.value.proof.Full? && body == FinishBody(p, s.pending.value)
    case CallPathResponse(_, body, carrierId, expected) => |carrierId| == 16 && body == carrierId + expected
    case _ => false
  }

  function Accepted(p: Primitives, s: Session, call: Safety.Call): seq<Sealed> {
    if Convinces(p, s, call) then [call.record] else []
  }

  /** What a call adds: the record it accepts, then the record it seals, unless that is data or an answer to a PING. */
  function Entered(p: Primitives, s: Session, call: Safety.Call): seq<Sealed> {
    Accepted(p, s, call)
    + (if call.CallSealData? || call.CallSealControl? then [] else ServerNonces.Drawn(p, s, call))
  }

  lemma TranscribedMoves(p: Primitives, s: Session, frameType: byte, body: Bytes)
    ensures var (s1, r) := SealTranscribed(p, s, frameType, body);
            s1.transcript == if r.Ok? then TranscriptNext(p, s.transcript, r.value) else s.transcript
  {
    hide TranscriptNext, FrameBytes, Seal;
  }

  lemma InitMoves(p: Primitives, s: Session, r: Sealed, body: Bytes, now: nat)
    requires Safety.Shape(p, s)
    ensures var (s1, outcome) := AcceptUpdateInit(p, s, r, body, now);
            var call := Safety.CallUpdateInit(r, body, now);
            if Convinces(p, s, call) then
              var noted := TranscriptNext(p, s.transcript, r);
              s1.transcript == if outcome.Ok? then TranscriptNext(p, noted, outcome.value) else noted
            else s1 == s && outcome.Err?
  {
    hide TranscriptNext, LabelledTag, ConfirmationKey, FromBigEndian, BigEndian, NewEpoch, Ascii, NamesEpochs,
         SealTranscribed;
    if |body| == 72 {
      EpochsRead(s, body);
      assert body[40..] == body[40..72];
      InputInOrder(s, body);
      if Convinces(p, s, Safety.CallUpdateInit(r, body, now)) {
        var input := UpdateInput(s.id, s.current.epoch, s.current.epoch + 1, body[8..40], s.transcript);
        var context := p.sha256(input);
        var confirmKey := ConfirmationKey(p, p.hmac(s.current.secret, context), s.id, s.current.epoch + 1);
        TranscribedMoves(p, s.(transcript := TranscriptNext(p, s.transcript, r)), 0x06,
                         BigEndian(s.current.epoch + 1, 4) + LabelledTag(p, confirmKey, ServerAck, context));
      }
    }
  }

  lemma FullInitMoves(p: Primitives, s: Session, r: Sealed, body: Bytes, clientKey: Bytes, serverKey: Bytes,
                      ephemeral: Bytes, now: nat)
    requires Safety.Shape(p, s)
    ensures var s1 := AcceptFullRekeyInit(p, s, r, body, clientKey, serverKey, ephemeral, now).0;
            var call := Safety.CallFullInit(r, body, clientKey, serverKey, ephemeral, now);
            if Convinces(p, s, call) then
              var noted := TranscriptNext(p, s.transcript, r);
              var drawn := ServerNonces.Drawn(p, s, call);
              |drawn| <= 1 && s1.transcript == if drawn != [] then TranscriptNext(p, noted, drawn[0]) else noted
            else s1 == s && ServerNonces.Drawn(p, s, call) == []
  {
    hide TranscriptNext, FromBigEndian, BigEndian, NewEpoch, Ascii, NamesEpochs, FullRekeyContext, SealTranscribed,
         ServerSignature;
    if |body| == 120 {
      EpochsRead(s, body);
      assert body[56..120] == body[56..];
      ContextInOrder(p, s.id, body, [], s.transcript);
      assert forall front: Bytes :: front + [] == front;
      var noted := s.(transcript := TranscriptNext(p, s.transcript, r));
      var content := body[0..24] + p.publicKey(ephemeral) + ServerSignature(p, noted, body, serverKey, ephemeral);
      TranscribedMoves(p, noted, 0x0A, content);
      ServerNonces.SealFails(p, noted, 0x0A, content);
    }
  }

  /** DONE is always sealed: it is the first record of its epoch. */
  lemma FinishMoves(p: Primitives, s: Session, r: Sealed, body: Bytes, now: nat)
    requires Safety.Shape(p, s)
    ensures var (s1, outcome) := AcceptUpdateCommit(p, s, r, body, now);
            if Convinces(p, s, Safety.CallUpdateCommit(r, body, now)) then
              outcome.Ok? && s1.transcript == TranscriptNext(p, TranscriptNext(p, s.transcript, r), outcome.value)
            else s1 == s && outcome.Err?
    ensures var (s1, outcome) := AcceptFullRekeyConfirm(p, s, r, body, now);
            if Convinces(p, s, Safety.CallFullConfirm(r, body, now)) then
              outcome.Ok? && s1.transcript == TranscriptNext(p, TranscriptNext(p, s.transcript, r), outcome.value)
            else s1 == s && outcome.Err?
  {
    hide Rotate, Ascii, FromBigEndian, BigEndian, TranscriptNext;
    if s.pending.Some? {
      var pending := s.pending.value;
      RotateMoves(p, s, r, now);
      assert pending.state.epoch < U32_LIMIT;
      TaggedBody(body, pending.state.epoch,
                 LabelledTag(p, pending.proof.confirmKey, ClientCommit, pending.proof.context));
      TaggedBody(body, pending.state.epoch,
                 LabelledTag(p, pending.proof.confirmKey, ClientConfirm, pending.proof.context));
    }
  }

  lemma RotateMoves(p: Primitives, s: Session, r: Sealed, now: nat)
    requires Safety.Shape(p, s) && s.pending.Some?
    ensures var (s1, outcome) := Rotate(p, s, r, now);
            outcome.Ok? && s1.transcript == TranscriptNext(p, TranscriptNext(p, s.transcript, r), outcome.value)
  {
    hide TranscriptNext, LabelledTag, FrameBytes;
    Safety.RotateEffect(p, s, r, now);
  }

  lemma ChallengeMoves(p: Primitives, s: Session, migrationSecret: Bytes, carrierId: Bytes, challenge: Bytes)
    ensures var (s1, r) := PathChallenge(p, s, migrationSecret, carrierId, challenge);
            s1.transcript == if r.Ok? then TranscriptNext(p, s.transcript, r.value.0) else s.transcript
  {
    hide TranscriptNext, SealTranscribed, Ascii;
    TranscribedMoves(p, s, 0x0C, carrierId + challenge);
    var (sealed, outcome) := SealTranscribed(p, s, 0x0C, carrierId + challenge);
    var (s1, r) := PathChallenge(p, s, migrationSecret, carrierId, challenge);
    if s.pending.None? {
      assert s1 == sealed && (r.Ok? <==> outcome.Ok?) && (r.Ok? ==> r.value.0 == outcome.value);
    }
  }

  lemma RequestMoves(p: Primitives, s: Session, now: nat)
    ensures var (s1, r) := RequestUpdateIfDue(p, s, now);
            s1.transcript == if r.Ok? && r.value.Some? then TranscriptNext(p, s.transcript, r.value.value)
                             else s.transcript
  {
    hide TranscriptNext, SealTranscribed, BigEndian;
    TranscribedMoves(p, s, 0x04, BigEndian(s.current.epoch, 4));
    var (sealed, outcome) := SealTranscribed(p, s, 0x04, BigEndian(s.current.epoch, 4));
    var (s1, r) := RequestUpdateIfDue(p, s, now);
    if r.Ok? && r.value.Some? { assert outcome.Ok? && r.value.value == outcome.value; }
  }

  lemma RestMoves(p: Primitives, s: Session, call: Safety.Call)
    requires Safety.Shape(p, s)
    requires call.CallRequestUpdate? || call.CallPathChallenge? || call.CallPathResponse?
    ensures var s1 := Safety.Apply(p, s, call).0;
            var drawn := ServerNonces.Drawn(p, s, call);
            if Convinces(p, s, call) then s1.transcript == TranscriptNext(p, s.transcript, call.record) && drawn == []
            else |drawn| <= 1
                 && s1.transcript == if drawn != [] then TranscriptNext(p, s.transcript, drawn[0]) else s.transcript
  {
    hide TranscriptNext, RequestUpdateIfDue, PathChallenge;
    match call
    case CallRequestUpdate(now) => RequestMoves(p, s, now);
    case CallPathChallenge(migrationSecret, carrierId, challenge) =>
      ChallengeMoves(p, s, migrationSecret, carrierId, challenge);
    case CallPathResponse(_, body, carrierId, expected) =>
      if |carrierId| == 16 && |body| == 48 {
        assert body == body[..16] + body[16..];
        assert (carrierId + expected)[..16] == carrierId && (carrierId + expected)[16..] == expected;
      }
  }

  lemma OthersMove(p: Primitives, s: Session, call: Safety.Call)
    requires call.CallOpen? || call.CallSealData? || call.CallSealControl?
    ensures Safety.Apply(p, s, call).0.transcript == s.transcript
  {
    hide OpenFrom, Seal;
  }

  lemma AtMostTwo(p: Primitives, t: Digest, accepted: seq<Sealed>, drawn: seq<Sealed>)
    requires |accepted| <= 1
    ensures |drawn| <= 1 ==>
              var noted := if accepted != [] then TranscriptNext(p, t, accepted[0]) else t;
              Chain(p, t, accepted + drawn) == if drawn != [] then TranscriptNext(p, noted, drawn[0]) else noted
  {
    hide Chain, TranscriptNext;
    ChainEmpty(p, t);
    if |drawn| <= 1 {
      assert accepted + [] == accepted && [] + drawn == drawn;
      if accepted != [] {
        assert accepted == [accepted[0]];
        ChainSteps(p, t, accepted[0], if drawn != [] then drawn[0] else accepted[0]);
      }
      if drawn != [] {
        assert drawn == [drawn[0]];
        ChainSteps(p, t, drawn[0], drawn[0]);
        assert accepted != [] ==> accepted + drawn == [accepted[0], drawn[0]];
      }
    }
  }

  lemma CallMoves(p: Primitives, s: Session, call: Safety.Call)
    requires Safety.Shape(p, s)
    ensures Safety.Apply(p, s, call).0.transcript == Chain(p, s.transcript, Entered(p, s, call))
  {
    hide Open, SealData, SealControl, AcceptUpdateInit, AcceptUpdateCommit, AcceptFullRekeyInit,
         AcceptFullRekeyConfirm, RequestUpdateIfDue, PathChallenge, AcceptPathResponse, Safety.Shape, SealFullReply,
         TranscriptNext, Chain, Convinces;
    var drawn := if call.CallSealData? || call.CallSealControl? then [] else ServerNonces.Drawn(p, s, call);
    AtMostTwo(p, s.transcript, Accepted(p, s, call), drawn);
    match call
    case CallUpdateInit(record, body, now) => InitMoves(p, s, record, body, now);
    case CallFullInit(record, body, clientKey, serverKey, ephemeral, now) =>
      FullInitMoves(p, s, record, body, clientKey, serverKey, ephemeral, now);
    case CallUpdateCommit(record, body, now) => FinishMoves(p, s, record, body, now);
    case CallFullConfirm(record, body, now) => FinishMoves(p, s, record, body, now);
    case CallRequestUpdate(_) => RestMoves(p, s, call);
    case CallPathChallenge(_, _, _) => RestMoves(p, s, call);
    case CallPathResponse(_, _, _, _) => RestMoves(p, s, call);
    case _ =>
      OthersMove(p, s, call);
      NotConvincing(p, s, call);
  }

  lemma NotConvincing(p: Primitives, s: Session, call: Safety.Call)
    requires call.CallOpen? || call.CallSealData? || call.CallSealControl?
    ensures !Convinces(p, s, call)
  {
  }

  /** The records a run adds. */
  function History(p: Primitives, start: Session, calls: seq<Safety.Call>): seq<Sealed> {
    if calls == [] then []
    else
      var before := calls[..|calls| - 1];
      History(p, start, before) + Entered(p, Safety.Run(p, start, before).0, calls[|calls| - 1])
  }

  lemma {:induction false} RunMoves(p: Primitives, start: Session, calls: seq<Safety.Call>)
    requires Safety.Shape(p, start) && Safety.LogInv(start, [])
    ensures Safety.Run(p, start, calls).0.transcript == Chain(p, start.transcript, History(p, start, calls))
    decreases |calls|
  {
    hide Safety.Shape, Safety.LogInv, Safety.Apply, Entered, Chain;
    if calls == [] {
      ChainEmpty(p, start.transcript);
    } else {
      var before, call := calls[..|calls| - 1], calls[|calls| - 1];
      RunMoves(p, start, before);
      Safety.RunKeepsInv(p, start, before);
      var s := Safety.Run(p, start, before).0;
      CallMoves(p, s, call);
      ChainSplits(p, start.transcript, History(p, start, before), Entered(p, s, call));
    }
  }

  lemma ChainEmpty(p: Primitives, s: Digest)
    ensures Chain(p, s, []) == s
  {
  }

  // ---- The client ----

  /** The frame the client waits for, from the epoch it has to come from. */
  predicate TakesUp(p: Primitives, c: Client, position: Position, f: Frame) {
    if c.pending.None? then position == Current && f == Frame(0x04, 0, BigEndian(c.epoch, 4))
    else
      || (position == Current && f == Frame(0x06, 0, Client_.AckBody(p, c)))
      || (position == Pending_ && c.pending.value.next.Some? && f == Frame(0x08, 0, Client_.DoneBody(p, c)))
  }

  lemma SameTakesUp(p: Primitives, c: Client, after: Client, position: Position, f: Frame)
    requires Client_.SameChecks(c, after)
    ensures TakesUp(p, c, position, f) == TakesUp(p, after, position, f)
  {
    hide Ascii, BigEndian;
  }

  /** The record opens, and is one such frame. */
  predicate Follows(p: Primitives, c: Client, r: Sealed) {
    && r.header.kind == Control
    && var frames := ClientFrames(r.plaintext);
       && frames.Ok? && |frames.value| == 1
       && ((Client_.OpensAt(c, r, Current) && TakesUp(p, c, Current, frames.value[0]))
           || (Client_.OpensAt(c, r, Pending_) && TakesUp(p, c, Pending_, frames.value[0])))
  }

  function EnteredAtClient(p: Primitives, c: Client, e: ClientSafety.Event): seq<Sealed> {
    if e.Send? || !Follows(p, c, e.record) then []
    else
      match ClientSafety.Step(p, c, e).1
      case Some(reply) => [e.record, reply]
      case None => [e.record]
  }

  lemma DispatchMoves(p: Primitives, c: Client, r: Sealed, position: Position, f: Frame, nonce: Digest, now: nat)
    requires f.flags == 0 && c.epoch < U32_LIMIT && (c.pending.Some? ==> c.pending.value.epoch < U32_LIMIT)
    ensures var (c1, outcome) := Dispatch(p, c, r, position, f, nonce, now);
            if TakesUp(p, c, position, f) then
              var noted := TranscriptNext(p, c.transcript, r);
              c1.transcript == if outcome.Ok? && outcome.value.Some? then TranscriptNext(p, noted, outcome.value.value)
                               else noted
            else c1 == c && (outcome.Ok? ==> outcome.value.None?)
  {
    hide TranscriptNext, UpdateInput, InitPlaintext, FromBigEndian, BigEndian, Ascii, DeriveKeys, SealAs, FrameBytes,
         Client_.AckBody, Client_.DoneBody;
    IntegersDecode(c.epoch);
    if |f.body| == 4 { BigEndianEncodes(f.body); }
    Client_.DoneIff(p, c, r, f.body);
    Client_.AckIff(p, c, r, f.body);
  }

  lemma EventMoves(p: Primitives, c: Client, e: ClientSafety.Event)
    requires Keys_.Keyed(p, c)
    ensures ClientSafety.Step(p, c, e).0.transcript == Chain(p, c.transcript, EnteredAtClient(p, c, e))
  {
    hide TranscriptNext, Chain, OpenRecord, Dispatch, ClientFrames, Client_.OpensAt, TakesUp;
    ChainEmpty(p, c.transcript);
    match e
    case Send(_) =>
    case Arrive(r, nonce, now) =>
      var out := ClientSafety.Step(p, c, e).1;
      ChainSteps(p, c.transcript, r, if out.Some? then out.value else r);
      Client_.OpenKeepsChecks(c, r);
      Client_.OpensIff(c, r, Current);
      Client_.OpensIff(c, r, Pending_);
      Client_.FramesHaveNoFlags(r.plaintext);
      SameTranscript(c, r);
      var (after, opening) := OpenRecord(c, r);
      var frames := ClientFrames(r.plaintext);
      if opening.Ok? && r.header.kind == Control && frames.Ok? && |frames.value| == 1 {
        var f := frames.value[0];
        assert frames.value == [f] && f in frames.value;
        DispatchMoves(p, after, r, opening.value.1, f, nonce, now);
        SameTakesUp(p, c, after, opening.value.1, f);
      }
  }

  lemma SameTranscript(c: Client, r: Sealed)
    ensures OpenRecord(c, r).0.transcript == c.transcript
  {
  }

  function ClientHistory(p: Primitives, start: Client, events: seq<ClientSafety.Event>): seq<Sealed> {
    if events == [] then []
    else
      var before := events[..|events| - 1];
      ClientHistory(p, start, before)
      + EnteredAtClient(p, ClientSafety.Run(p, start, before).0, events[|events| - 1])
  }

  lemma {:induction false} ClientRunMoves(p: Primitives, start: Client, events: seq<ClientSafety.Event>)
    requires Keys_.Keyed(p, start)
    ensures ClientSafety.Run(p, start, events).0.transcript
            == Chain(p, start.transcript, ClientHistory(p, start, events))
    decreases |events|
  {
    hide Keys_.Keyed, EnteredAtClient, Chain, ClientSafety.Step, Keys_.FromClient;
    if events == [] {
      ChainEmpty(p, start.transcript);
    } else {
      var before, e := events[..|events| - 1], events[|events| - 1];
      ClientRunMoves(p, start, before);
      Keys_.RunFromClient(p, start, before);
      var c := ClientSafety.Run(p, start, before).0;
      EventMoves(p, c, e);
      ChainSplits(p, start.transcript, ClientHistory(p, start, before), EnteredAtClient(p, c, e));
    }
  }

  // ---- Main result ----

  /** As far back as the shorter history goes, the two have the same records on the wire. */
  ghost predicate EndsAlike(p: Primitives, a: seq<Sealed>, b: seq<Sealed>) {
    var shared := Min(|a|, |b|);
    AllSame(p, a[|a| - shared..], b[|b| - shared..])
  }

  ghost predicate AllSame(p: Primitives, a: seq<Sealed>, b: seq<Sealed>)
    requires |a| == |b|
  {
    forall i | 0 <= i < |a| :: SameOnTheWire(p, a[i], b[i])
  }

  /** At either end and over any run, the transcript is the chain over the records that were accepted and sealed, from
      the hash of the handshake and the session on. So a client and a server with one transcript have seen one history,
      octet for octet back to the start of the shorter, unless two different inputs they hashed collide: the tags over
      the transcript vouch for all of it. */
  lemma OneTranscriptOneHistory(p: Primitives, id: Bytes, secret: Digest, handshakeTranscript: Digest, now: nat,
                                calls: seq<Safety.Call>, clientSecret: Digest, clientTranscript: Digest,
                                events: seq<ClientSafety.Event>)
    ensures var server, client := New(p, id, secret, handshakeTranscript, now),
                                  NewClient(p, id, clientSecret, clientTranscript);
            var s, c := Safety.Run(p, server, calls).0, ClientSafety.Run(p, client, events).0;
            var a, b := History(p, server, calls), ClientHistory(p, client, events);
            var start := Ascii("RekaSerdoba/1 control transcript");
            && s.transcript == Chain(p, p.sha256(start + handshakeTranscript + id), a)
            && c.transcript == Chain(p, p.sha256(start + clientTranscript + id), b)
            && (s.transcript == c.transcript && !Collide(p, server.transcript, a, client.transcript, b) ==>
                  EndsAlike(p, a, b))
  {
    hide Safety.Shape, Safety.LogInv, Ascii, NewEpoch, TrafficKey, Chain, Collide, SameOnTheWire, Safety.Run,
         ClientSafety.Run, History, ClientHistory, New, NewClient, Keys_.Keyed;
    Start(p, id, secret, handshakeTranscript, now, clientSecret, clientTranscript);
    var server, client := New(p, id, secret, handshakeTranscript, now),
                          NewClient(p, id, clientSecret, clientTranscript);
    Safety.NewSessionStartsWell(p, id, secret, handshakeTranscript, now);
    RunMoves(p, server, calls);
    ClientRunMoves(p, client, events);
    var a, b := History(p, server, calls), ClientHistory(p, client, events);
    if Chain(p, server.transcript, a) == Chain(p, client.transcript, b)
       && !Collide(p, server.transcript, a, client.transcript, b) {
      if |a| <= |b| {
        ChainEnds(p, server.transcript, a, client.transcript, b);
      } else {
        CollideTurned(p, server.transcript, a, client.transcript, b);
        ChainEnds(p, client.transcript, b, server.transcript, a);
        forall i | 0 <= i < |b| ensures SameOnTheWire(p, a[|a| - |b| + i], b[i]) {
          SameTurned(p, b[i], a[|a| - |b| + i]);
        }
      }
    }
  }

  lemma Start(p: Primitives, id: Bytes, secret: Digest, handshakeTranscript: Digest, now: nat, clientSecret: Digest,
              clientTranscript: Digest)
    ensures New(p, id, secret, handshakeTranscript, now).transcript
            == p.sha256(Ascii("RekaSerdoba/1 control transcript") + handshakeTranscript + id)
    ensures NewClient(p, id, clientSecret, clientTranscript).transcript
            == p.sha256(Ascii("RekaSerdoba/1 control transcript") + clientTranscript + id)
    ensures Keys_.Keyed(p, NewClient(p, id, clientSecret, clientTranscript))
  {
    hide Ascii, TrafficKey;
  }

  lemma SameTurned(p: Primitives, a: Sealed, b: Sealed)
    ensures SameOnTheWire(p, a, b) <==> SameOnTheWire(p, b, a)
  {
  }

  lemma CollideTurned(p: Primitives, s: Digest, a: seq<Sealed>, t: Digest, b: seq<Sealed>)
    ensures Collide(p, s, a, t, b) <==> Collide(p, t, b, s, a)
  {
    hide Chain, LastInput;
  }
}
