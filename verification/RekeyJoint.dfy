/** The client and the server joined by two first-in first-out queues: every run of server-requested key
    updates, with data flowing both ways all the time. */
module RekeyJoint {
  import opened Prelude
  import opened Record
  import opened ReplayWindow
  import opened Rekey
  import opened ClientCore
  import opened ServerRecords
  import Safety = RekeySafety

  /** Both ends, the records on their way, the clock, and one history variable: how many data records
      the client sent under the old epoch since its last COMMIT. */
  datatype World = World(
    server: Session,
    client: Client,
    c2s: seq<Sealed>,
    s2c: seq<Sealed>,
    now: nat,
    late: nat
  )

  datatype Event =
    | Tick(elapsed: nat)
    | Poll
    | ServerSends(frames: seq<Frame>)
    | ClientSends(frames: seq<Frame>)
    | ServerReceives
    | ClientReceives(nonce: Digest)

  /** A step happens, is ruled out by the assumptions on the run, or ends in a rejection. */
  datatype Outcome = Happens(world: World) | Excluded | Rejects

  const OLD_RECORDS_IN_FLIGHT: nat := 128

  predicate GoodFrames(frames: seq<Frame>) {
    && Encodable(frames)
    && (forall f | f in frames :: Known(Data, f.frameType) && f.flags == 0)
    && |FramesBytes(frames)| + TAG_LEN <= MAX_CIPHERTEXT_LEN
  }

  predicate AwaitsDone(c: Client) {
    c.pending.Some? && c.pending.value.next.Some?
  }

  /** The client has not yet left the epoch the server retired, or some of its old records are still
      on their way. */
  predicate OldTrafficOutstanding(w: World) {
    w.client.epoch < w.server.current.epoch || exists r | r in w.c2s :: r.header.epoch < w.server.current.epoch
  }

  /** The assumptions on a run: old-epoch traffic is over within its 3 s, at most 128 old-epoch data
      records follow a COMMIT, no epoch carries more than 2^32 data records in one direction, the last
      epoch number is not reached, and an update that times out ends the run. */
  function Take(p: Primitives, env: Env, w: World, e: Event): Outcome {
    match e
    case Tick(elapsed) =>
      if OldTrafficOutstanding(w) && w.server.previous.Some? && w.now + elapsed >= w.server.previous.value.expiresAt
      then Excluded
      else Happens(w.(now := w.now + elapsed))
    case Poll =>
      if w.server.current.epoch + 1 >= U32_LIMIT then Excluded
      else
        var (s1, r) := RequestUpdateIfDue(p, w.server, w.now);
        (match r
         case Err(error) => if error == UpdateTimedOut then Excluded else Rejects
         case Ok(None) => Happens(w.(server := s1))
         case Ok(Some(request)) => Happens(w.(server := s1, s2c := w.s2c + [request])))
    case ServerSends(frames) =>
      if !GoodFrames(frames) || w.server.current.s2cData.next >= MAX_RECORDS_PER_EPOCH then Excluded
      else
        var (s1, r) := SealData(w.server, FramesBytes(frames), false);
        if r.Err? then Rejects else Happens(w.(server := s1, s2c := w.s2c + [r.value]))
    case ClientSends(frames) =>
      if !GoodFrames(frames) || w.client.dataNumber >= MAX_RECORDS_PER_EPOCH
         || (AwaitsDone(w.client) && w.late >= OLD_RECORDS_IN_FLIGHT)
      then Excluded
      else
        var (c1, r) := SendData(w.client, FramesBytes(frames));
        if r.Err? then Rejects
        else Happens(w.(client := c1, c2s := w.c2s + [r.value], late := if AwaitsDone(w.client) then w.late + 1
                        else w.late))
    case ServerReceives =>
      if w.c2s == [] then Excluded
      else
        var (s1, r) := ProcessRecord(p, w.server, w.c2s[0], env, w.now, w.now);
        if r.Err? then Rejects else Happens(w.(server := s1, c2s := w.c2s[1..], s2c := w.s2c + r.value.records))
    case ClientReceives(nonce) =>
      if w.s2c == [] then Excluded
      else
        var (c1, r) := Receive(p, w.client, w.s2c[0], nonce, w.now);
        if r.Err? then Rejects
        else
          Happens(w.(client := c1,
                     s2c := w.s2c[1..],
                     c2s := w.c2s + (if r.value.reply.Some? then [r.value.reply.value] else []),
                     late := if AwaitsDone(c1) && !AwaitsDone(w.client) then 0 else w.late))
  }

  function Start(p: Primitives, id: Bytes, secret: Digest, handshakeTranscript: Digest, now: nat): World {
    World(New(p, id, secret, handshakeTranscript, now), NewClient(p, id, secret, handshakeTranscript), [], [], now, 0)
  }

  /** The outcome of a run; a step that is excluded does not happen. */
  function Run(p: Primitives, env: Env, start: World, events: seq<Event>): Outcome {
    if events == [] then Happens(start)
    else match Run(p, env, start, events[..|events| - 1])
      case Happens(w) => Take(p, env, w, events[|events| - 1])
      case other => other
  }

  // ---- What travels in the queues ----

  predicate GoodPlaintext(b: Bytes) {
    |b| + TAG_LEN <= MAX_CIPHERTEXT_LEN && Frames(b, Data).Ok? && ClientFrames(b).Ok?
  }

  predicate IsData(r: Sealed, id: Bytes, epoch: nat, key: Digest, number: nat) {
    r == SealAs(id, Data, epoch, key, number, r.plaintext) && GoodPlaintext(r.plaintext)
  }

  /** Records `from <= i < to` of the queue are data records of one epoch with consecutive numbers. */
  predicate DataRun(q: seq<Sealed>, from: nat, to: nat, id: Bytes, epoch: nat, key: Digest, first: nat) {
    && to <= |q|
    && forall i | from <= i < to :: IsData(q[i], id, epoch, key, first + (i - from))
  }

  lemma GoodFramesParse(frames: seq<Frame>)
    requires GoodFrames(frames)
    ensures GoodPlaintext(FramesBytes(frames))
  {
    ParsersAgree(frames, Data);
  }

  /** The server-to-client queue. While the client is an epoch behind: data of its epoch, then DONE at
      position `turn`. After that, or from the start: data of the server's epoch with at most one control
      record among it, at position `at`. */
  ghost predicate Downstream(w: World, turn: nat, at: nat) {
    var s, c, q := w.server, w.client, w.s2c;
    var same := c.epoch == s.current.epoch;
    var start := if same then 0 else turn + 1;
    var base := if same then c.dataWindow.Next() else 0;
    && (!same ==>
          && turn < |q|
          && q[turn].header.kind == Control
          && c.dataWindow.Next() + turn <= MAX_RECORDS_PER_EPOCH
          && DataRun(q, 0, turn, c.id, c.epoch, c.keys.s2cData, c.dataWindow.Next()))
    && start <= at <= |q|
    && DataRun(q, start, at, s.id, s.current.epoch, s.current.s2cData.key, base)
    && (at < |q| ==> q[at].header.kind == Control)
    && DataRun(q, Min(at + 1, |q|), |q|, s.id, s.current.epoch, s.current.s2cData.key, base + (at - start))
    && s.current.s2cData.next == base + (at - start) + (|q| - Min(at + 1, |q|))
  }

  /** The client-to-server queue: `stale` data records of the retired epoch, then data of the current one
      with at most one control record among it, at position `at`. */
  ghost predicate Upstream(w: World, stale: nat, at: nat) {
    var s, c, q := w.server, w.client, w.c2s;
    var next := s.current.c2sData.window.Next();
    && stale <= at <= |q|
    && (stale > 0 ==>
          && s.previous.Some?
          && stale <= s.previous.value.remaining
          && w.now < s.previous.value.expiresAt
          && var previous := s.previous.value.state;
             previous.c2sData.window.Next() + stale <= MAX_RECORDS_PER_EPOCH
             && DataRun(q, 0, stale, s.id, previous.epoch, previous.c2sData.key, previous.c2sData.window.Next()))
    && DataRun(q, stale, at, s.id, s.current.epoch, s.current.c2sData.key, next)
    && (at < |q| ==> q[at].header.kind == Control)
    && DataRun(q, Min(at + 1, |q|), |q|, s.id, s.current.epoch, s.current.c2sData.key, next + (at - stale))
    && if c.epoch == s.current.epoch
       then c.dataNumber == next + (at - stale) + (|q| - Min(at + 1, |q|))
       else
         && stale == |q| && next == 0
         && s.previous.Some?
         && c.dataNumber == s.previous.value.state.c2sData.window.Next() + |q|
  }

  ghost predicate Traffic(p: Primitives, w: World, m: Marks) {
    var s, c := w.server, w.client;
    && Safety.Shape(p, s)
    && s.id == c.id && |s.id| == 16
    && c.keys == DeriveKeys(p, c.secret, c.id, c.epoch)
    && c.epoch <= s.current.epoch <= c.epoch + 1
    && (c.epoch == s.current.epoch ==> c.secret == s.current.secret)
    && s.current.s2cData.next <= MAX_RECORDS_PER_EPOCH
    && c.dataNumber <= MAX_RECORDS_PER_EPOCH
    && s.dataRecords == s.current.s2cData.next + s.current.c2sData.window.Next()
    && s.plaintextBytes <= s.dataRecords * MAX_CIPHERTEXT_LEN
    && c.dataWindow.Valid() && c.controlWindow.Valid()
    && Upstream(w, m.stale, m.up)
    && Downstream(w, m.turn, m.down)
  }

  // ---- The phases of an update ----

  function ServerControl(s: Session, number: nat, frameType: byte, body: Bytes): Sealed {
    var plaintext := FrameBytes(Frame(frameType, 0, body));
    Sealed(HeaderFor(s.current.s2cControl, number, plaintext, false), s.current.s2cControl.key, plaintext)
  }

  function RequestRecord(s: Session, number: nat): Sealed {
    ServerControl(s, number, 0x04, BigEndian(s.current.epoch, 4))
  }

  function AckRecord(p: Primitives, s: Session, number: nat, proof: Proof): Sealed {
    ServerControl(s, number, 0x06, BigEndian(s.current.epoch + 1, 4)
                  + LabelledTag(p, proof.confirmKey, ServerAck, proof.context))
  }

  function DoneRecord(p: Primitives, s: Session, number: nat, confirmKey: Digest, context: Digest): Sealed {
    ServerControl(s, number, 0x08, BigEndian(s.current.epoch, 4) + LabelledTag(p, confirmKey, ServerDone, context))
  }

  function InitRecord(p: Primitives, c: Client, number: nat, nonce: Digest, transcript: Digest): Sealed {
    var input := UpdateInput(c.id, c.epoch, c.epoch + 1, nonce, transcript);
    SealAs(c.id, Control, c.epoch, c.keys.c2sControl, number, InitPlaintext(c.epoch, nonce, p.hmac(c.secret, input)))
  }

  function PendingCommit(p: Primitives, c: Client): Sealed
    requires AwaitsDone(c)
  {
    var pending := c.pending.value;
    CommitRecord(p, c.id, pending.epoch, pending.next.value.keys, pending.next.value.confirmKey, pending.context)
  }

  /** No update is under way and both ends agree on everything. */
  ghost predicate Idle(w: World, up: nat, down: nat) {
    var s, c := w.server, w.client;
    && c.epoch == s.current.epoch && s.pending.None? && c.pending.None? && !s.updateRequested
    && up == |w.c2s| && down == |w.s2c|
    && s.transcript == c.transcript
    && c.controlWindow.Next() == s.current.s2cControl.next <= 1
    && s.current.c2sControl.window.Next() == c.controlNumber <= 1
  }

  /** REQUEST is on its way; the server's transcript is one record ahead. */
  ghost predicate Requested(p: Primitives, w: World, up: nat, down: nat) {
    var s, c := w.server, w.client;
    && c.epoch == s.current.epoch && s.pending.None? && c.pending.None? && s.updateRequested
    && s.current.epoch + 1 < U32_LIMIT
    && up == |w.c2s| && down < |w.s2c|
    && s.current.s2cControl.next == c.controlWindow.Next() + 1 <= 2
    && w.s2c[down] == RequestRecord(s, c.controlWindow.Next())
    && s.transcript == TranscriptNext(p, c.transcript, w.s2c[down])
    && s.current.c2sControl.window.Next() == c.controlNumber <= 1
  }

  /** INIT is on its way; the client is one record ahead. */
  ghost predicate Initiated(p: Primitives, w: World, up: nat, down: nat, nonce: Digest) {
    var s, c := w.server, w.client;
    && c.epoch == s.current.epoch && s.pending.None? && s.updateRequested
    && s.current.epoch + 1 < U32_LIMIT
    && up < |w.c2s| && down == |w.s2c|
    && c.pending.Some? && c.pending.value.epoch == c.epoch + 1 && c.pending.value.next.None?
    && c.pending.value.context == p.sha256(UpdateInput(c.id, c.epoch, c.epoch + 1, nonce, s.transcript))
    && c.controlNumber == s.current.c2sControl.window.Next() + 1 <= 2
    && w.c2s[up] == InitRecord(p, c, c.controlNumber - 1, nonce, s.transcript)
    && c.transcript == TranscriptNext(p, s.transcript, w.c2s[up])
    && c.controlWindow.Next() == s.current.s2cControl.next <= 2
  }

  /** The server's pending epoch is the one the client derives from its own secret and context. */
  ghost predicate SamePending(p: Primitives, w: World) {
    var s, c := w.server, w.client;
    && c.epoch == s.current.epoch && s.updateRequested
    && s.pending.Some? && c.pending.Some?
    && var pending := s.pending.value;
       && pending.proof.Routine?
       && c.pending.value.epoch == pending.state.epoch == c.epoch + 1
       && c.pending.value.context == pending.proof.context
       && pending.state.secret == p.hmac(c.secret, pending.proof.context)
       && pending.proof.confirmKey == ConfirmationKey(p, pending.state.secret, c.id, c.epoch + 1)
       && pending.state.c2sControl.window.seen == {}
       && pending.state.c2sData.window.seen == {}
       && pending.state.s2cData.next == 0
  }

  /** ACK is on its way; the server is one record ahead. */
  ghost predicate Acked(p: Primitives, w: World, stale: nat, up: nat, down: nat) {
    var s, c := w.server, w.client;
    && SamePending(p, w)
    && c.pending.value.next.None?
    && stale == 0 && up == |w.c2s| && down < |w.s2c|
    && s.current.s2cControl.next == c.controlWindow.Next() + 1 <= 3
    && w.s2c[down] == AckRecord(p, s, c.controlWindow.Next(), s.pending.value.proof)
    && s.transcript == TranscriptNext(p, c.transcript, w.s2c[down])
  }

  ghost predicate HoldsNext(p: Primitives, c: Client, secret: Digest) {
    && AwaitsDone(c)
    && var next := c.pending.value.next.value;
       && next.secret == secret
       && next.keys == DeriveKeys(p, secret, c.id, c.pending.value.epoch)
       && next.confirmKey == ConfirmationKey(p, secret, c.id, c.pending.value.epoch)
       && next.dataWindow == next.controlWindow == Empty(DEFAULT_REPLAY_WINDOW)
  }

  /** COMMIT is on its way, with at most 128 old-epoch records behind it; the client is one ahead. */
  ghost predicate Committed(p: Primitives, w: World, stale: nat, up: nat, down: nat) {
    var s, c := w.server, w.client;
    && SamePending(p, w)
    && HoldsNext(p, c, s.pending.value.state.secret)
    && stale == 0 && up < |w.c2s| && down == |w.s2c|
    && w.late == |w.c2s| - up - 1 <= OLD_RECORDS_IN_FLIGHT
    && w.c2s[up] == PendingCommit(p, c)
    && c.transcript == TranscriptNext(p, s.transcript, w.c2s[up])
    && c.controlWindow.Next() == s.current.s2cControl.next <= 3
  }

  /** The server moved on and DONE is on its way; everything the client still sends is old. If the new
      epoch is busy enough, the next REQUEST may already follow DONE in the queue. */
  ghost predicate Rotated(p: Primitives, w: World, turn: nat, down: nat) {
    var s, c := w.server, w.client;
    && c.epoch + 1 == s.current.epoch && s.pending.None?
    && AwaitsDone(c) && c.pending.value.epoch == s.current.epoch
    && HoldsNext(p, c, s.current.secret)
    && s.previous.Some?
    && s.previous.value.state.secret == c.secret
    && w.now < s.previous.value.expiresAt
    && w.late + s.previous.value.remaining == OLD_RECORDS_IN_FLIGHT + |w.c2s|
    && w.late <= OLD_RECORDS_IN_FLIGHT
    && turn < |w.s2c|
    && s.current.c2sControl.window.Next() == 1
    && w.s2c[turn] == DoneRecord(p, s, 0, c.pending.value.next.value.confirmKey, c.pending.value.context)
    && var done := TranscriptNext(p, c.transcript, w.s2c[turn]);
       if !s.updateRequested then
         down == |w.s2c| && s.current.s2cControl.next == 1 && s.transcript == done
       else
         && down < |w.s2c| && s.current.s2cControl.next == 2
         && s.current.epoch + 1 < U32_LIMIT
         && w.s2c[down] == RequestRecord(s, 1)
         && s.transcript == TranscriptNext(p, done, w.s2c[down])
  }

  /** Where the markers of the queues stand. */
  datatype Marks = Marks(stale: nat, up: nat, turn: nat, down: nat, nonce: Digest)

  ghost predicate Phase(p: Primitives, w: World, m: Marks) {
    || Idle(w, m.up, m.down)
    || Requested(p, w, m.up, m.down)
    || Initiated(p, w, m.up, m.down, m.nonce)
    || Acked(p, w, m.stale, m.up, m.down)
    || Committed(p, w, m.stale, m.up, m.down)
    || Rotated(p, w, m.turn, m.down)
  }

  ghost predicate InvAt(p: Primitives, w: World, m: Marks) {
    Traffic(p, w, m) && Phase(p, w, m)
  }

  ghost predicate Inv(p: Primitives, w: World) {
    exists m :: InvAt(p, w, m)
  }

  /** Nothing of an update is under way: none requested, none pending, and nothing in either queue. */
  predicate Quiescent(w: World) {
    && !w.server.updateRequested && w.server.pending.None? && w.client.pending.None?
    && w.c2s == [] && w.s2c == []
  }

  /** How many deliveries are still to come: the records on their way and the answers they cause. */
  function Outstanding(w: World): nat {
    |w.c2s| + |w.s2c| +
    (if w.client.epoch < w.server.current.epoch then (if w.server.updateRequested then 4 else 0)
     else if w.server.pending.Some? then (if AwaitsDone(w.client) then 1 else 2)
     else if w.client.pending.Some? then 3
     else if w.server.updateRequested then 4
     else 0)
  }

  /** The epoch both ends are heading for. */
  function Target(w: World): nat {
    w.server.current.epoch + if w.server.updateRequested then 1 else 0
  }

  predicate Advances(w: World, w1: World) {
    Outstanding(w1) < Outstanding(w) && Target(w1) == Target(w)
  }
}
