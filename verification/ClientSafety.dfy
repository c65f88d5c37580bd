/** Over every run of the client, no record number is used for two different records. */
module ClientSafety {
  import opened Prelude
  import opened Record
  import opened Rekey
  import opened ClientCore

  datatype Event = Send(plaintext: Bytes) | Arrive(record: Sealed, nonce: Digest, now: nat)

  /** One event, and the record it makes the client seal, if any. */
  function Step(p: Primitives, c: Client, e: Event): (Client, Option<Sealed>) {
    match e
    case Send(plaintext) =>
      var (c1, r) := SendData(c, plaintext);
      (c1, if r.Ok? then Some(r.value) else None)
    case Arrive(record, nonce, now) =>
      var (c1, r) := Receive(p, c, record, nonce, now);
      (c1, if r.Ok? then r.value.reply else None)
  }

  function Run(p: Primitives, start: Client, events: seq<Event>): (Client, seq<Sealed>) {
    if events == [] then (start, [])
    else
      var (c, sent) := Run(p, start, events[..|events| - 1]);
      var (c1, out) := Step(p, c, events[|events| - 1]);
      (c1, if out.Some? then sent + [out.value] else sent)
  }

  ghost predicate Consistent(p: Primitives, c: Client) {
    c.pending.Some? ==>
      && c.pending.value.epoch == c.epoch + 1
      && (c.pending.value.next.Some? ==>
            && var derived := DeriveNext(p, c, c.pending.value);
            && var next := c.pending.value.next.value;
            && next.keys == derived.keys && next.secret == derived.secret && next.confirmKey == derived.confirmKey)
  }

  /** The pending COMMIT, once it was sent. */
  ghost predicate IsCommit(p: Primitives, c: Client, r: Sealed) {
    && c.pending.Some? && c.pending.value.next.Some?
    && var next := c.pending.value.next.value;
       r == CommitRecord(p, c.id, c.pending.value.epoch, next.keys, next.confirmKey, c.pending.value.context)
  }

  /** Where a sealed record stands against the counters: behind them, or it is the pending COMMIT. */
  ghost predicate Spent(p: Primitives, c: Client, r: Sealed) {
    var h := r.header;
    h.number < U64_LIMIT &&
    if h.kind == Data then h.epoch <= c.epoch && (h.epoch == c.epoch ==> h.number < c.dataNumber)
    else
      || (h.epoch <= c.epoch && (h.epoch == c.epoch ==> h.number < c.controlNumber))
      || (h.epoch == c.epoch + 1 && IsCommit(p, c, r))
  }

  predicate SameNumber(a: Sealed, b: Sealed) {
    a.header.kind == b.header.kind && a.header.epoch == b.header.epoch && a.header.number == b.header.number
  }

  ghost predicate NumbersUsedOnce(sent: seq<Sealed>) {
    forall i, j | 0 <= i < j < |sent| :: SameNumber(sent[i], sent[j]) ==> sent[i] == sent[j]
  }

  /** Everything one event can do to the counters and the pending update. */
  ghost predicate StepEffect(p: Primitives, c: Client, c1: Client, out: Option<Sealed>) {
    && Consistent(p, c1)
    && (forall r :: Spent(p, c, r) ==> Spent(p, c1, r))
    && (out.Some? ==>
          && Spent(p, c1, out.value)
          && (Spent(p, c, out.value) ==> IsCommit(p, c, out.value))
          && forall r :: Spent(p, c, r) && SameNumber(r, out.value) ==> r == out.value)
  }

  lemma SendEffect(p: Primitives, c: Client, plaintext: Bytes)
    requires Consistent(p, c)
    ensures StepEffect(p, c, Step(p, c, Send(plaintext)).0, Step(p, c, Send(plaintext)).1)
  {
  }

  lemma OpenRecordEffect(p: Primitives, c: Client, record: Sealed)
    requires Consistent(p, c)
    ensures var (c1, r) := OpenRecord(c, record);
            && Consistent(p, c1)
            && c1.id == c.id && c1.epoch == c.epoch && c1.secret == c.secret && c1.keys == c.keys
            && c1.dataNumber == c.dataNumber && c1.controlNumber == c.controlNumber
            && (c1.pending.Some? <==> c.pending.Some?)
            && (forall x :: Spent(p, c, x) <==> Spent(p, c1, x))
            && (forall x :: IsCommit(p, c, x) <==> IsCommit(p, c1, x))
  {
    hide TranscriptNext, UpdateInput, LabelledTag, ConfirmationKey, TrafficKey, FrameBytes;
  }

  lemma DispatchEffect(p: Primitives, c: Client, record: Sealed, position: Position, f: Frame, nonce: Digest, now: nat)
    requires Consistent(p, c)
    ensures var (c1, r) := Dispatch(p, c, record, position, f, nonce, now);
            StepEffect(p, c, c1, if r.Ok? then r.value else None)
  {
    hide TranscriptNext, UpdateInput, LabelledTag, ConfirmationKey, TrafficKey, FrameBytes, FromBigEndian,
         InitPlaintext;
  }

  lemma StepIsSafe(p: Primitives, c: Client, e: Event)
    requires Consistent(p, c)
    ensures StepEffect(p, c, Step(p, c, e).0, Step(p, c, e).1)
  {
    hide SendData, OpenRecord, Dispatch, ClientFrames;
    match e
    case Send(plaintext) => SendEffect(p, c, plaintext);
    case Arrive(record, nonce, now) =>
      OpenRecordEffect(p, c, record);
      var (c1, r) := OpenRecord(c, record);
      if r.Ok? {
        var frames := ClientFrames(r.value.0);
        if frames.Ok? && |frames.value| == 1 {
          DispatchEffect(p, c1, record, r.value.1, frames.value[0], nonce, now);
        }
      }
  }

  lemma {:induction false} RunKeepsSpent(p: Primitives, start: Client, events: seq<Event>)
    requires Consistent(p, start)
    ensures var (c, sent) := Run(p, start, events);
            Consistent(p, c) && NumbersUsedOnce(sent) && forall r | r in sent :: Spent(p, c, r)
    decreases |events|
  {
    hide Consistent, Spent, Step, StepEffect;
    if events != [] {
      RunKeepsSpent(p, start, events[..|events| - 1]);
      var (c, sent) := Run(p, start, events[..|events| - 1]);
      StepIsSafe(p, c, events[|events| - 1]);
      AppendSent(p, c, Step(p, c, events[|events| - 1]).0, sent, Step(p, c, events[|events| - 1]).1);
    }
  }

  lemma AppendSent(p: Primitives, c: Client, c1: Client, sent: seq<Sealed>, out: Option<Sealed>)
    requires StepEffect(p, c, c1, out) && NumbersUsedOnce(sent) && forall r | r in sent :: Spent(p, c, r)
    ensures var sent1 := if out.Some? then sent + [out.value] else sent;
            Consistent(p, c1) && NumbersUsedOnce(sent1) && forall r | r in sent1 :: Spent(p, c1, r)
  {
  }

  /** Over every run of the client, whatever the network delivers, two records sealed under the same
      kind, epoch and number are the same record: the counters that restart at 0 and 1 after DONE never
      meet COMMIT's number 0, and a repeated acknowledgment only repeats COMMIT itself. */
  lemma ClientNeverReusesANumber(p: Primitives, id: Bytes, secret: Digest, handshakeTranscript: Digest,
                                 events: seq<Event>)
    ensures NumbersUsedOnce(Run(p, NewClient(p, id, secret, handshakeTranscript), events).1)
  {
    RunKeepsSpent(p, NewClient(p, id, secret, handshakeTranscript), events);
  }

  /** So two different records of one kind and epoch are never sealed with one nonce. */
  lemma ClientNeverReusesANonce(p: Primitives, id: Bytes, secret: Digest, handshakeTranscript: Digest,
                                events: seq<Event>, a: Sealed, b: Sealed, iv: Bytes)
    requires var sent := Run(p, NewClient(p, id, secret, handshakeTranscript), events).1; a in sent && b in sent
    requires a != b && a.header.kind == b.header.kind && a.header.epoch == b.header.epoch && |iv| == 12
    ensures Nonce(iv, a.header.number) != Nonce(iv, b.header.number)
  {
    hide Nonce, Run, NewClient;
    var start := NewClient(p, id, secret, handshakeTranscript);
    assert Consistent(p, start) by { NewIsConsistent(p, id, secret, handshakeTranscript); }
    RunKeepsSpent(p, start, events);
    NonceInjective(iv, a.header.number, b.header.number);
  }

  lemma NewIsConsistent(p: Primitives, id: Bytes, secret: Digest, handshakeTranscript: Digest)
    ensures Consistent(p, NewClient(p, id, secret, handshakeTranscript))
  {
  }
}
