/** What the client asks of a record before it follows the server: for every record, exactly when an update begins,
    when the next keys are derived and when they are taken into use. Labels and tags are spelled out. */
module ClientProofs {
  import opened Prelude
  import opened Record
  import opened ReplayWindow
  import opened Rekey
  import opened ClientCore

  // ---- Opening ----

  /** The record is what the server would seal, without padding, under this key and with a number that is fresh. */
  predicate Fits(r: Sealed, id: Bytes, kind: RecordKind, epoch: nat, key: Digest, window: Window) {
    && r.header == Header(kind, epoch % 2 != 0, false, id, epoch, r.header.number, |r.plaintext| + TAG_LEN)
    && r.key == key
    && window.Fresh(r.header.number)
  }

  /** Where a record can be opened: in the client's epoch, or, a control record only, in the one it has keys for. */
  predicate OpensAt(c: Client, r: Sealed, position: Position) {
    match position
    case Current =>
      if r.header.kind == Control then Fits(r, c.id, Control, c.epoch, c.keys.s2cControl, c.controlWindow)
      else Fits(r, c.id, Data, c.epoch, c.keys.s2cData, c.dataWindow)
    case Pending_ =>
      && c.pending.Some? && c.pending.value.next.Some? && r.header.kind == Control
      && Fits(r, c.id, Control, c.pending.value.epoch, c.pending.value.next.value.keys.s2cControl,
              c.pending.value.next.value.controlWindow)
    case Previous_ => false
  }

  /** The client's epochs differ. */
  predicate InOrder(c: Client) {
    c.pending.Some? ==> c.pending.value.epoch == c.epoch + 1
  }

  lemma OpensIff(c: Client, r: Sealed, position: Position)
    requires InOrder(c)
    ensures OpenRecord(c, r).1 == Ok((r.plaintext, position)) <==> OpensAt(c, r, position)
    ensures OpenRecord(c, r).1.Ok? && OpenRecord(c, r).1.value.1 == position ==> OpensAt(c, r, position)
  {
  }

  // ---- What each message proves ----

  /** A control record of exactly one frame, without flags. */
  predicate IsFrame(r: Sealed, frameType: byte, body: Bytes) {
    r.header.kind == Control && ClientFrames(r.plaintext) == Ok([Frame(frameType, 0, body)])
  }

  /** ACK: the pending epoch, and the tag under the confirmation key of the secret that follows the client's own. */
  function AckBody(p: Primitives, c: Client): Bytes
    requires c.pending.Some?
  {
    var pending := c.pending.value;
    var secret := p.hmac(c.secret, pending.context);
    var confirmKey := p.expand(secret, "epoch confirmation", c.id + BigEndian(pending.epoch, 4));
    BigEndian(pending.epoch, 4) + p.hmac(confirmKey, Ascii("server ack") + pending.context)
  }

  /** DONE: the pending epoch, and the tag under the confirmation key derived for it. */
  function DoneBody(p: Primitives, c: Client): Bytes
    requires c.pending.Some? && c.pending.value.next.Some?
  {
    var pending := c.pending.value;
    BigEndian(pending.epoch, 4) + p.hmac(pending.next.value.confirmKey, Ascii("server done") + pending.context)
  }

  lemma TaggedBody(body: Bytes, epoch: nat, tag: Digest)
    requires epoch < U32_LIMIT
    ensures body == BigEndian(epoch, 4) + tag <==>
            |body| == 36 && FromBigEndian(body[..4]) == epoch && body[4..] == tag
  {
    IntegersDecode(epoch);
    if |body| == 36 {
      BigEndianEncodes(body[..4]);
      assert body == body[..4] + body[4..];
    }
    if body == BigEndian(epoch, 4) + tag { assert body[..4] == BigEndian(epoch, 4) && body[4..] == tag; }
  }

  lemma DoneIff(p: Primitives, c: Client, r: Sealed, body: Bytes)
    requires c.pending.Some? ==> c.pending.value.epoch < U32_LIMIT
    ensures AcceptUpdateDone(p, c, r, body).1.Ok? <==>
            c.pending.Some? && c.pending.value.next.Some? && body == DoneBody(p, c)
    ensures AcceptUpdateDone(p, c, r, body).1.Ok? ==>
              AcceptUpdateDone(p, c, r, body).0.epoch == c.pending.value.epoch
    ensures AcceptUpdateDone(p, c, r, body).1.Err? ==> AcceptUpdateDone(p, c, r, body).0 == c
  {
    hide TranscriptNext, Ascii, FromBigEndian, BigEndian;
    if c.pending.Some? && c.pending.value.next.Some? {
      var pending := c.pending.value;
      TaggedBody(body, pending.epoch, LabelledTag(p, pending.next.value.confirmKey, ServerDone, pending.context));
    }
  }

  lemma AckIff(p: Primitives, c: Client, r: Sealed, body: Bytes)
    requires c.pending.Some? ==> c.pending.value.epoch < U32_LIMIT
    ensures AcceptUpdateAck(p, c, r, body).1.Ok? <==> c.pending.Some? && body == AckBody(p, c)
    ensures AcceptUpdateAck(p, c, r, body).1.Err? ==> AcceptUpdateAck(p, c, r, body).0 == c
    ensures AcceptUpdateAck(p, c, r, body).1.Ok? ==>
              var c1 := AcceptUpdateAck(p, c, r, body).0;
              c1.epoch == c.epoch && c1.pending.Some? && c1.pending.value.next.Some?
  {
    hide TranscriptNext, Ascii, FromBigEndian, BigEndian, DeriveKeys, FrameBytes;
    if c.pending.Some? {
      var pending := c.pending.value;
      var confirmKey := DeriveNext(p, c, pending).confirmKey;
      TaggedBody(body, pending.epoch, LabelledTag(p, confirmKey, ServerAck, pending.context));
    }
  }

  lemma RequestIff(p: Primitives, c: Client, r: Sealed, body: Bytes, nonce: Digest, now: nat)
    requires c.epoch < U32_LIMIT && c.pending.None?
    ensures var c1 := AcceptUpdateRequest(p, c, r, body, nonce, now).0;
            && (c1.pending.Some? <==>
                  body == BigEndian(c.epoch, 4) && c.epoch + 1 < U32_LIMIT && c.controlNumber < U64_LIMIT)
            && c1.epoch == c.epoch
  {
    hide TranscriptNext, Ascii, FromBigEndian, BigEndian, UpdateInput;
    IntegersDecode(c.epoch);
    if |body| == 4 { BigEndianEncodes(body); }
    assert forall tag: Digest :: |InitPlaintext(c.epoch, nonce, tag)| == 76;
  }

  // ---- One record ----

  /** What opening a record leaves as it was: all that a message is checked against. */
  predicate SameChecks(c: Client, c1: Client) {
    && c1.id == c.id && c1.epoch == c.epoch && c1.secret == c.secret && c1.controlNumber == c.controlNumber
    && (c1.pending.Some? <==> c.pending.Some?)
    && (c.pending.Some? ==>
          && c1.pending.value.epoch == c.pending.value.epoch && c1.pending.value.context == c.pending.value.context
          && (c1.pending.value.next.Some? <==> c.pending.value.next.Some?)
          && (c.pending.value.next.Some? ==>
                c1.pending.value.next.value.confirmKey == c.pending.value.next.value.confirmKey))
  }

  lemma OpenKeepsChecks(c: Client, r: Sealed)
    ensures SameChecks(c, OpenRecord(c, r).0)
    ensures OpenRecord(c, r).1.Ok? ==>
              OpenRecord(c, r).1.value.0 == r.plaintext && !OpenRecord(c, r).1.value.1.Previous_?
  {
  }

  lemma {:induction false} FramesHaveNoFlags(b: Bytes)
    ensures ClientFrames(b).Ok? ==> forall f | f in ClientFrames(b).value :: f.flags == 0
    decreases |b|
  {
    hide FromBigEndian;
    if ClientFrames(b).Ok? && |b| > 0 {
      var length := FromBigEndian(b[2..4]);
      FramesHaveNoFlags(b[4 + length..]);
    }
  }

  /** The client takes DONE for its pending update. */
  predicate Finishes(p: Primitives, c: Client, position: Position, f: Frame) {
    && position == Pending_ && c.pending.Some? && c.pending.value.next.Some?
    && f == Frame(0x08, 0, DoneBody(p, c))
  }

  predicate Begins(c: Client, position: Position, f: Frame) {
    && position == Current && f == Frame(0x04, 0, BigEndian(c.epoch, 4))
    && c.epoch + 1 < U32_LIMIT && c.controlNumber < U64_LIMIT
  }

  predicate Acknowledges(p: Primitives, c: Client, position: Position, f: Frame) {
    position == Current && c.pending.Some? && f == Frame(0x06, 0, AckBody(p, c))
  }

  lemma DispatchIff(p: Primitives, c: Client, after: Client, r: Sealed, position: Position, f: Frame, nonce: Digest,
                    now: nat)
    requires SameChecks(c, after) && InOrder(c) && f.flags == 0 && c.epoch < U32_LIMIT
    requires c.pending.Some? ==> c.pending.value.epoch < U32_LIMIT
    ensures var c1 := Dispatch(p, after, r, position, f, nonce, now).0;
            && (c1.epoch != c.epoch <==> Finishes(p, c, position, f))
            && (c.pending.None? ==> (c1.pending.Some? <==> Begins(c, position, f)))
            && (c.pending.Some? && c.pending.value.next.None? ==>
                  (c1.pending.Some? && c1.pending.value.next.Some? <==> Acknowledges(p, c, position, f)))
  {
    hide AcceptUpdateRequest, AcceptUpdateAck, AcceptUpdateDone, Ascii, BigEndian;
    DoneIff(p, after, r, f.body);
    AckIff(p, after, r, f.body);
    if c.pending.None? { RequestIff(p, after, r, f.body, nonce, now); }
    PendingStays(p, after, r, f.body, nonce, now);
  }

  lemma PendingStays(p: Primitives, c: Client, r: Sealed, body: Bytes, nonce: Digest, now: nat)
    ensures c.pending.Some? ==> AcceptUpdateRequest(p, c, r, body, nonce, now).0 == c
    ensures AcceptUpdateRequest(p, c, r, body, nonce, now).0.epoch == c.epoch
    ensures c.pending.None? ==> AcceptUpdateAck(p, c, r, body).0 == c && AcceptUpdateDone(p, c, r, body).0 == c
    ensures AcceptUpdateDone(p, c, r, body).1.Ok? ==> AcceptUpdateDone(p, c, r, body).0.pending.None?
  {
    hide TranscriptNext, UpdateInput, FromBigEndian, InitPlaintext, LabelledTag, DeriveKeys, FrameBytes;
  }

  /** For every record. The client changes its epoch if and only if the record opens in the pending one and is DONE
      with the right tag. Without an update it begins one exactly on a REQUEST that opens in its epoch and names it;
      and it derives the next keys exactly on an ACK that opens in its epoch and has the right tag. */
  lemma ReceiveMovesIff(p: Primitives, c: Client, r: Sealed, nonce: Digest, now: nat)
    requires InOrder(c) && c.epoch < U32_LIMIT && (c.pending.Some? ==> c.pending.value.epoch < U32_LIMIT)
    ensures var c1 := Receive(p, c, r, nonce, now).0;
            && (c1.epoch != c.epoch <==>
                  && OpensAt(c, r, Pending_) && c.pending.Some? && c.pending.value.next.Some?
                  && IsFrame(r, 0x08, DoneBody(p, c)))
            && (c.pending.None? ==>
                  (c1.pending.Some? <==>
                     && OpensAt(c, r, Current) && IsFrame(r, 0x04, BigEndian(c.epoch, 4))
                     && c.epoch + 1 < U32_LIMIT && c.controlNumber < U64_LIMIT))
            && (c.pending.Some? && c.pending.value.next.None? ==>
                  (c1.pending.Some? && c1.pending.value.next.Some? <==>
                     OpensAt(c, r, Current) && IsFrame(r, 0x06, AckBody(p, c))))
  {
    hide OpenRecord, Dispatch, ClientFrames, OpensAt, DoneBody, AckBody, BigEndian;
    OpenKeepsChecks(c, r);
    OpensIff(c, r, Current);
    OpensIff(c, r, Pending_);
    FramesHaveNoFlags(r.plaintext);
    var (after, opening) := OpenRecord(c, r);
    var frames := ClientFrames(r.plaintext);
    if opening.Ok? && r.header.kind == Control && frames.Ok? && |frames.value| == 1 {
      var f := frames.value[0];
      assert frames.value == [f] && f in frames.value;
      DispatchIff(p, c, after, r, opening.value.1, f, nonce, now);
    }
  }

  /** A control record of no frame or several changes nothing beyond its window, and is refused exactly when one of its
      frames is of a type from 4 to 0x11. */
  lemma BundledIsRefusedIff(p: Primitives, c: Client, r: Sealed, nonce: Digest, now: nat)
    requires OpenRecord(c, r).1.Ok? && r.header.kind == Control && ClientFrames(r.plaintext).Ok?
    requires |ClientFrames(r.plaintext).value| != 1
    ensures var (c1, outcome) := Receive(p, c, r, nonce, now);
            && c1 == OpenRecord(c, r).0
            && (if exists f | f in ClientFrames(r.plaintext).value :: 0x04 <= f.frameType <= 0x11
                then outcome == Err(NotSingleFrame)
                else outcome == Ok(Received([], None)))
  {
    hide OpenRecord, ClientFrames, Dispatch;
    OpenKeepsChecks(c, r);
  }
}
