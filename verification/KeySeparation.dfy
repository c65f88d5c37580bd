/** Which key each record is sealed under, and so what the numbers of `ServerNonces` and `ClientSafety` are worth:
    both ends together never use one key with one nonce for two records, over both kinds and both directions. */
module KeySeparation {
  import opened Prelude
  import opened Record
  import opened Rekey
  import opened ClientCore
  import Safety = RekeySafety
  import ServerNonces
  import ClientSafety

  const LABELS: set<string> := {"data c2s", "data s2c", "control c2s", "control s2c"}

  /** The key schedule keeps the keys of one session apart: a traffic key tells the label and the epoch it was
      derived for. */
  ghost predicate Separates(p: Primitives, id: Bytes) {
    forall s: Digest, t: Digest, a, b, d: nat, e: nat
      | a in LABELS && b in LABELS && d < U32_LIMIT && e < U32_LIMIT
        && p.expand(s, a, id + BigEndian(d, 4)) == p.expand(t, b, id + BigEndian(e, 4))
      :: a == b && d == e
  }

  /** A derivation of this kind: the label's number, the epoch, and nothing else. */
  function LabelNumber(a: string): byte {
    if a == "data c2s" then 0 else if a == "data s2c" then 1 else if a == "control c2s" then 2 else 3
  }

  function Schedule(a: string, context: Bytes): Digest {
    [LabelNumber(a)] + seq(31, i requires 0 <= i < 31 => if i < |context| then context[i] else 0)
  }

  lemma SeparationIsPossible(p: Primitives, id: Bytes)
    requires |id| == 16
    ensures Separates(p.(expand := (s, a, context) => Schedule(a, context)), id)
  {
    var q := p.(expand := (s, a, context) => Schedule(a, context));
    forall s: Digest, t: Digest, a, b, d: nat, e: nat
      | a in LABELS && b in LABELS && d < U32_LIMIT && e < U32_LIMIT
        && q.expand(s, a, id + BigEndian(d, 4)) == q.expand(t, b, id + BigEndian(e, 4))
      ensures a == b && d == e
    {
      var x, y := Schedule(a, id + BigEndian(d, 4)), Schedule(b, id + BigEndian(e, 4));
      assert x == y && x[0] == y[0];
      forall i | 0 <= i < 4 ensures BigEndian(d, 4)[i] == BigEndian(e, 4)[i] {
        assert x[17 + i] == y[17 + i];
      }
      assert BigEndian(d, 4) == BigEndian(e, 4);
      IntegersDecode(d);
      IntegersDecode(e);
    }
  }

  /** The key was derived from some secret, for this label, this session and this epoch. */
  ghost predicate Derived(p: Primitives, key: Digest, purpose: string, id: Bytes, epoch: nat) {
    epoch < U32_LIMIT && exists secret: Digest :: p.expand(secret, purpose, id + BigEndian(epoch, 4)) == key
  }

  ghost predicate FromServer(p: Primitives, id: Bytes, r: Sealed) {
    Derived(p, r.key, if r.header.kind == Data then "data s2c" else "control s2c", id, r.header.epoch)
  }

  ghost predicate FromClient(p: Primitives, id: Bytes, r: Sealed) {
    Derived(p, r.key, if r.header.kind == Data then "data c2s" else "control c2s", id, r.header.epoch)
  }

  /** The four keys of an epoch are different, and so are those of two epochs. */
  lemma EpochKeysDiffer(p: Primitives, id: Bytes, epoch: nat, secret: Digest, other: nat, otherSecret: Digest)
    requires Separates(p, id) && epoch < U32_LIMIT && other < U32_LIMIT
    ensures var a, b := NewEpoch(p, id, epoch, secret), NewEpoch(p, id, other, otherSecret);
            var keys := [a.c2sData.key, a.s2cData.key, a.c2sControl.key, a.s2cControl.key];
            var others := [b.c2sData.key, b.s2cData.key, b.c2sControl.key, b.s2cControl.key];
            forall i, j | 0 <= i < 4 && 0 <= j < 4 && keys[i] == others[j] :: i == j && epoch == other
  {
  }

  lemma EndsUseDifferentKeys(p: Primitives, id: Bytes, a: Sealed, b: Sealed)
    requires Separates(p, id) && FromServer(p, id, a) && FromClient(p, id, b)
    ensures a.key != b.key
  {
  }

  lemma SameKeySamePlace(p: Primitives, id: Bytes, a: Sealed, b: Sealed)
    requires Separates(p, id) && a.key == b.key
    requires (FromServer(p, id, a) && FromServer(p, id, b)) || (FromClient(p, id, a) && FromClient(p, id, b))
    ensures a.header.kind == b.header.kind && a.header.epoch == b.header.epoch
  {
  }

  // ---- The server ----

  lemma SealedFromServer(p: Primitives, s: Session, r: Sealed)
    requires Safety.Shape(p, s) && ServerNonces.SealedNow(s, r)
    ensures FromServer(p, s.id, r)
  {
    var purpose := if r.header.kind == Data then "data s2c" else "control s2c";
    assert p.expand(s.current.secret, purpose, s.id + BigEndian(r.header.epoch, 4)) == r.key;
  }

  lemma CallKeepsId(p: Primitives, s: Session, call: Safety.Call)
    ensures Safety.Apply(p, s, call).0.id == s.id
  {
    hide TranscriptNext, FrameBytes, BigEndian, FromBigEndian, Ascii, LabelledTag, UpdateInput, NewEpoch,
         FullRekeyContext, ConfirmationKey, OpenFrom, Seal;
  }

  lemma {:induction false} RunFromServer(p: Primitives, start: Session, calls: seq<Safety.Call>)
    requires Safety.Shape(p, start) && Safety.LogInv(start, [])
    ensures Safety.Run(p, start, calls).0.id == start.id
    ensures forall r | r in ServerNonces.SealedIn(p, start, calls) :: FromServer(p, start.id, r)
    decreases |calls|
  {
    hide Safety.Shape, Safety.LogInv, Safety.Apply, ServerNonces.Drawn, FromServer, ServerNonces.Spent,
         ServerNonces.SealedNow, ServerNonces.Keeps;
    if calls != [] {
      var before, call := calls[..|calls| - 1], calls[|calls| - 1];
      RunFromServer(p, start, before);
      Safety.RunKeepsInv(p, start, before);
      Safety.RunKeepsInv(p, start, calls);
      var s := Safety.Run(p, start, before).0;
      CallKeepsId(p, s, call);
      ServerNonces.CallDraws(p, s, call);
      var drawn := ServerNonces.Drawn(p, s, call);
      if drawn != [] { SealedFromServer(p, Safety.Apply(p, s, call).0, drawn[0]); }
    }
  }

  // ---- The client ----

  ghost predicate Keyed(p: Primitives, c: Client) {
    && c.epoch < U32_LIMIT
    && c.keys == DeriveKeys(p, c.secret, c.id, c.epoch)
    && ClientSafety.Consistent(p, c)
    && (c.pending.Some? ==> c.pending.value.epoch < U32_LIMIT)
  }

  ghost predicate KeepsKeyed(p: Primitives, c: Client, c1: Client, out: Option<Sealed>) {
    Keyed(p, c1) && c1.id == c.id && (out.Some? ==> FromClient(p, c.id, out.value))
  }

  lemma SealFromClient(p: Primitives, secret: Digest, id: Bytes, kind: RecordKind, epoch: nat, number: nat,
                       plaintext: Bytes)
    requires epoch < U32_LIMIT
    ensures FromClient(p, id, SealAs(id, kind, epoch, TrafficKey(p, secret, id, epoch, kind, C2S), number, plaintext))
  {
    var purpose := if kind == Data then "data c2s" else "control c2s";
    assert p.expand(secret, purpose, id + BigEndian(epoch, 4)) == TrafficKey(p, secret, id, epoch, kind, C2S);
  }

  lemma OpenKeepsKeyed(p: Primitives, c: Client, record: Sealed)
    requires Keyed(p, c)
    ensures KeepsKeyed(p, c, OpenRecord(c, record).0, None)
  {
    hide OpenWith, TrafficKey, ConfirmationKey;
  }

  lemma RequestKeepsKeyed(p: Primitives, c: Client, record: Sealed, body: Bytes, nonce: Digest, now: nat)
    requires Keyed(p, c)
    ensures var (c1, r) := AcceptUpdateRequest(p, c, record, body, nonce, now);
            KeepsKeyed(p, c, c1, if r.Ok? then Some(r.value) else None)
  {
    hide TranscriptNext, UpdateInput, TrafficKey, ConfirmationKey, FromBigEndian, InitPlaintext, SealAs, FromClient;
    var noted := c.(transcript := TranscriptNext(p, c.transcript, record));
    var input := UpdateInput(c.id, c.epoch, c.epoch + 1, nonce, noted.transcript);
    SealFromClient(p, c.secret, c.id, Control, c.epoch, c.controlNumber,
                   InitPlaintext(c.epoch, nonce, p.hmac(c.secret, input)));
  }

  lemma AckKeepsKeyed(p: Primitives, c: Client, record: Sealed, body: Bytes)
    requires Keyed(p, c)
    ensures var (c1, r) := AcceptUpdateAck(p, c, record, body);
            KeepsKeyed(p, c, c1, if r.Ok? then Some(r.value) else None)
  {
    hide TranscriptNext, TrafficKey, ConfirmationKey, FromBigEndian, SealAs, FromClient, LabelledTag, FrameBytes;
    if c.pending.Some? {
      var pending := c.pending.value;
      var next := DeriveNext(p, c, pending);
      SealFromClient(p, next.secret, c.id, Control, pending.epoch, 0,
        FrameBytes(Frame(0x07, 0, BigEndian(pending.epoch, 4)
                                  + LabelledTag(p, next.confirmKey, ClientCommit, pending.context))));
    }
  }

  lemma DoneKeepsKeyed(p: Primitives, c: Client, record: Sealed, body: Bytes)
    requires Keyed(p, c)
    ensures KeepsKeyed(p, c, AcceptUpdateDone(p, c, record, body).0, None)
  {
    hide TranscriptNext, TrafficKey, ConfirmationKey, FromBigEndian, LabelledTag;
  }

  lemma StepKeepsKeyed(p: Primitives, c: Client, e: ClientSafety.Event)
    requires Keyed(p, c)
    ensures KeepsKeyed(p, c, ClientSafety.Step(p, c, e).0, ClientSafety.Step(p, c, e).1)
  {
    hide OpenRecord, ClientFrames, AcceptUpdateRequest, AcceptUpdateAck, AcceptUpdateDone, TrafficKey, FromClient,
         SealAs, ConfirmationKey;
    match e
    case Send(plaintext) => SealFromClient(p, c.secret, c.id, Data, c.epoch, c.dataNumber, plaintext);
    case Arrive(record, nonce, now) =>
      OpenKeepsKeyed(p, c, record);
      var (c1, r) := OpenRecord(c, record);
      if r.Ok? {
        var frames := ClientFrames(r.value.0);
        if frames.Ok? && |frames.value| == 1 {
          var body := frames.value[0].body;
          RequestKeepsKeyed(p, c1, record, body, nonce, now);
          AckKeepsKeyed(p, c1, record, body);
          DoneKeepsKeyed(p, c1, record, body);
        }
      }
  }

  lemma {:induction false} RunFromClient(p: Primitives, start: Client, events: seq<ClientSafety.Event>)
    requires Keyed(p, start)
    ensures var (c, sent) := ClientSafety.Run(p, start, events);
            Keyed(p, c) && c.id == start.id && forall r | r in sent :: FromClient(p, start.id, r)
    decreases |events|
  {
    hide Keyed, ClientSafety.Step, FromClient;
    if events != [] {
      RunFromClient(p, start, events[..|events| - 1]);
      StepKeepsKeyed(p, ClientSafety.Run(p, start, events[..|events| - 1]).0, events[|events| - 1]);
    }
  }

  // ---- Main results ----

  /** Whatever arrives, every record an end seals is under the key derived for its direction, its kind and its epoch
      from some secret. */
  lemma KeysByLabel(p: Primitives, id: Bytes, secret: Digest, handshakeTranscript: Digest, now: nat,
                    calls: seq<Safety.Call>, clientSecret: Digest, clientTranscript: Digest,
                    events: seq<ClientSafety.Event>)
    ensures forall r | r in ServerNonces.SealedIn(p, New(p, id, secret, handshakeTranscript, now), calls) ::
              FromServer(p, id, r)
    ensures forall r | r in ClientSafety.Run(p, NewClient(p, id, clientSecret, clientTranscript), events).1 ::
              FromClient(p, id, r)
  {
    hide Safety.Shape, Safety.LogInv, FromServer, FromClient, Ascii, NewEpoch, TrafficKey;
    Safety.NewSessionStartsWell(p, id, secret, handshakeTranscript, now);
    RunFromServer(p, New(p, id, secret, handshakeTranscript, now), calls);
    RunFromClient(p, NewClient(p, id, clientSecret, clientTranscript), events);
  }

  /** The records of both ends over any two runs, those of the server first. */
  function AllSealed(p: Primitives, server: Session, calls: seq<Safety.Call>, client: Client,
                     events: seq<ClientSafety.Event>): seq<Sealed> {
    ServerNonces.SealedIn(p, server, calls) + ClientSafety.Run(p, client, events).1
  }

  /** No key is used twice with one nonce: over any runs of the two ends of a session, across data and control
      records, both directions and all epochs, two records sealed under one key have different nonces under any IV.
      The one exception is a COMMIT the client sends again, octet for octet. */
  lemma NoNonceTwiceUnderAKey(p: Primitives, id: Bytes, secret: Digest, handshakeTranscript: Digest, now: nat,
                              calls: seq<Safety.Call>, clientSecret: Digest, clientTranscript: Digest,
                              events: seq<ClientSafety.Event>, i: nat, j: nat, iv: Bytes)
    requires Separates(p, id) && |iv| == 12
    requires var all := AllSealed(p, New(p, id, secret, handshakeTranscript, now), calls,
                                  NewClient(p, id, clientSecret, clientTranscript), events);
             i < j < |all| && all[i].key == all[j].key
    ensures var server := New(p, id, secret, handshakeTranscript, now);
            var all := AllSealed(p, server, calls, NewClient(p, id, clientSecret, clientTranscript), events);
            || Nonce(iv, all[i].header.number) != Nonce(iv, all[j].header.number)
            || (all[i] == all[j] && i >= |ServerNonces.SealedIn(p, server, calls)|)
  {
    hide Nonce, New, NewClient, ServerNonces.SealedIn, ClientSafety.Run, Separates, FromServer, FromClient;
    var server, client := New(p, id, secret, handshakeTranscript, now),
      NewClient(p, id, clientSecret, clientTranscript);
    var sealed, sent := ServerNonces.SealedIn(p, server, calls), ClientSafety.Run(p, client, events).1;
    var all := AllSealed(p, server, calls, client, events);
    KeysByLabel(p, id, secret, handshakeTranscript, now, calls, clientSecret, clientTranscript, events);
    if j < |sealed| {
      assert all[i] in sealed && all[j] in sealed;
      SameKeySamePlace(p, id, all[i], all[j]);
      ServerNonces.ServerNeverReusesANonce(p, id, secret, handshakeTranscript, now, calls, i, j, iv);
    } else if i >= |sealed| {
      assert all[i] in sent && all[j] in sent;
      SameKeySamePlace(p, id, all[i], all[j]);
      if all[i] != all[j] {
        ClientSafety.ClientNeverReusesANonce(p, id, clientSecret, clientTranscript, events, all[i], all[j], iv);
      }
    } else {
      assert all[i] in sealed && all[j] in sent;
      EndsUseDifferentKeys(p, id, all[i], all[j]);
    }
  }

  // ---- Inputs under one key ----

  /** Labels enter as their ASCII codes. */
  lemma AsciiSpells(s: string, t: string)
    requires forall i | 0 <= i < |s| :: s[i] < 128 as char
    requires forall i | 0 <= i < |t| :: t[i] < 128 as char
    ensures |Ascii(s)| == |s| && forall i | 0 <= i < |s| :: Ascii(s)[i] == s[i] as int
    ensures Ascii(s) == Ascii(t) <==> s == t
  {
    if Ascii(s) == Ascii(t) {
      forall i | 0 <= i < |s| ensures s[i] == t[i] {
        assert Ascii(s)[i] == Ascii(t)[i];
      }
      assert s == t;
    }
  }

  /** What the INIT tag is over determines the session, both epochs, the nonce and the transcript. */
  lemma UpdateInputTells(id: Bytes, current: nat, next: nat, nonce: Digest, transcript: Digest, id': Bytes,
                         current': nat, next': nat, nonce': Digest, transcript': Digest)
    requires |id| == |id'| == 16
    requires current < U32_LIMIT && next < U32_LIMIT && current' < U32_LIMIT && next' < U32_LIMIT
    ensures UpdateInput(id, current, next, nonce, transcript) == UpdateInput(id', current', next', nonce', transcript')
            <==> id == id' && current == current' && next == next' && nonce == nonce' && transcript == transcript'
  {
    var x, y := UpdateInput(id, current, next, nonce, transcript),
                UpdateInput(id', current', next', nonce', transcript');
    UpdateInputParts(id, current, next, nonce, transcript);
    UpdateInputParts(id', current', next', nonce', transcript');
    IntegersDecode(current);
    IntegersDecode(next);
    IntegersDecode(current');
    IntegersDecode(next');
  }

  lemma UpdateInputParts(id: Bytes, current: nat, next: nat, nonce: Digest, transcript: Digest)
    requires |id| == 16
    ensures var x := UpdateInput(id, current, next, nonce, transcript);
            && |x| == 114 && x[26..42] == id && x[42..46] == BigEndian(current, 4) && x[46..50] == BigEndian(next, 4)
            && x[50..82] == nonce && x[82..] == transcript
  {
    hide BigEndian, Ascii;
    assert |Ascii("RekaSerdoba/1 epoch update")| == 26 by { AsciiLength("RekaSerdoba/1 epoch update"); }
  }

  lemma AsciiLength(s: string)
    ensures |Ascii(s)| == |s|
  {
  }

  /** The confirmation key tags four kinds of message, and no two of them, nor two contexts, have one input. */
  lemma TagInputsDiffer(tag: Tag, context: Digest, other: Tag, otherContext: Digest)
    ensures Ascii(TagName(tag)) + context == Ascii(TagName(other)) + otherContext
            <==> tag == other && context == otherContext
  {
    var n := |TagName(tag)|;
    var x, y := Ascii(TagName(tag)) + context, Ascii(TagName(other)) + otherContext;
    if x == y {
      assert |TagName(tag)| == |TagName(other)|;
      assert x[n..] == context && y[n..] == otherContext;
    }
  }

  /** The secret of an epoch tags an INIT and derives the next secret of a routine and of a full rekey: three inputs
      that are never the same. */
  lemma SecretUsesDiffer(id: Bytes, current: nat, next: nat, nonce: Digest, transcript: Digest, context: Digest,
                         shared: Digest, fullContext: Digest)
    requires |id| == 16
    ensures UpdateInput(id, current, next, nonce, transcript) != context
    ensures UpdateInput(id, current, next, nonce, transcript) != shared + fullContext
    ensures shared + fullContext != context
  {
    UpdateInputParts(id, current, next, nonce, transcript);
  }
}
