/** The joint run keeps its invariant: no step is ever a rejection, and both ends stay in agreement. */
module RekeyAgreement {
  import opened Prelude
  import opened Record
  import opened ReplayWindow
  import opened Rekey
  import opened ClientCore
  import opened ServerRecords
  import opened RekeyJoint
  import opened RekeyExchange
  import Safety = RekeySafety

  // ---- Queues ----

  lemma PopRun(q: seq<Sealed>, from: nat, to: nat, id: Bytes, epoch: nat, key: Digest, first: nat)
    requires |q| > 0 && from <= to && DataRun(q, from, to, id, epoch, key, first)
    ensures from > 0 ==> DataRun(q[1..], from - 1, to - 1, id, epoch, key, first)
    ensures from == 0 < to ==> DataRun(q[1..], 0, to - 1, id, epoch, key, first + 1)
  {
  }

  lemma ExtendRun(q: seq<Sealed>, r: Sealed, from: nat, id: Bytes, epoch: nat, key: Digest, first: nat)
    requires from <= |q| && DataRun(q, from, |q|, id, epoch, key, first)
    requires IsData(r, id, epoch, key, first + (|q| - from))
    ensures DataRun(q + [r], from, |q| + 1, id, epoch, key, first)
  {
  }

  lemma KeepRun(q: seq<Sealed>, more: seq<Sealed>, from: nat, to: nat, id: Bytes, epoch: nat, key: Digest, first: nat)
    requires DataRun(q, from, to, id, epoch, key, first)
    ensures DataRun(q + more, from, to, id, epoch, key, first)
  {
  }

  // ---- The end of a queue: new records ----

  /** The client sends one more data record at the server's epoch. */
  lemma AppendCurrentData(w: World, w1: World, stale: nat, up: nat, r: Sealed)
    requires Upstream(w, stale, up) && w.client.epoch == w.server.current.epoch
    requires w1.server == w.server && w1.now == w.now && w1.c2s == w.c2s + [r]
    requires w1.client.epoch == w.client.epoch && w1.client.dataNumber == w.client.dataNumber + 1
    requires IsData(r, w.server.id, w.server.current.epoch, w.server.current.c2sData.key, w.client.dataNumber)
    ensures Upstream(w1, stale, if up == |w.c2s| then |w1.c2s| else up)
  {
    hide IsData;
    var s := w.server;
    var next := s.current.c2sData.window.Next();
    if stale > 0 {
      var previous := s.previous.value.state;
      KeepRun(w.c2s, [r], 0, stale, s.id, previous.epoch, previous.c2sData.key, previous.c2sData.window.Next());
    }
    if up == |w.c2s| {
      ExtendRun(w.c2s, r, stale, s.id, s.current.epoch, s.current.c2sData.key, next);
    } else {
      KeepRun(w.c2s, [r], stale, up, s.id, s.current.epoch, s.current.c2sData.key, next);
      ExtendRun(w.c2s, r, up + 1, s.id, s.current.epoch, s.current.c2sData.key, next + (up - stale));
    }
  }

  /** The client sends one more data record at the epoch the server has retired. */
  lemma AppendRetiredData(w: World, w1: World, stale: nat, up: nat, r: Sealed)
    requires Upstream(w, stale, up) && w.client.epoch < w.server.current.epoch
    requires w1.server == w.server && w1.now == w.now && w1.c2s == w.c2s + [r]
    requires w1.client.epoch == w.client.epoch && w1.client.dataNumber == w.client.dataNumber + 1
    requires |w.c2s| < w.server.previous.value.remaining && w.now < w.server.previous.value.expiresAt
    requires w.client.dataNumber < MAX_RECORDS_PER_EPOCH
    requires var previous := w.server.previous.value.state;
             IsData(r, w.server.id, previous.epoch, previous.c2sData.key, w.client.dataNumber)
    ensures Upstream(w1, |w1.c2s|, |w1.c2s|)
  {
    hide IsData;
    var s := w.server;
    var previous := s.previous.value.state;
    ExtendRun(w.c2s, r, 0, s.id, previous.epoch, previous.c2sData.key, previous.c2sData.window.Next());
  }

  /** The client sends a control record while none is in its queue. */
  lemma AppendUpControl(w: World, w1: World, stale: nat, r: Sealed)
    requires Upstream(w, stale, |w.c2s|) && w.client.epoch == w.server.current.epoch
    requires w1.server == w.server && w1.now == w.now && w1.c2s == w.c2s + [r]
    requires w1.client.epoch == w.client.epoch && w1.client.dataNumber == w.client.dataNumber
    requires r.header.kind == Control
    ensures Upstream(w1, stale, |w.c2s|)
  {
    hide IsData;
  }

  lemma AppendDownData(w: World, w1: World, turn: nat, down: nat, r: Sealed)
    requires Downstream(w, turn, down)
    requires w1.client == w.client && w1.s2c == w.s2c + [r]
    requires w1.server.id == w.server.id && w1.server.current.epoch == w.server.current.epoch
    requires w1.server.current.s2cData == w.server.current.s2cData.(next := w.server.current.s2cData.next + 1)
    requires IsData(r, w.server.id, w.server.current.epoch, w.server.current.s2cData.key, w.server.current.s2cData.next)
    ensures Downstream(w1, turn, if down == |w.s2c| then |w1.s2c| else down)
  {
    hide IsData;
    var c, s := w.client, w.server;
    var same := c.epoch == s.current.epoch;
    var start := if same then 0 else turn + 1;
    var base := if same then c.dataWindow.Next() else 0;
    if !same {
      KeepRun(w.s2c, [r], 0, turn, c.id, c.epoch, c.keys.s2cData, c.dataWindow.Next());
    }
    if down == |w.s2c| {
      ExtendRun(w.s2c, r, start, s.id, s.current.epoch, s.current.s2cData.key, base);
    } else {
      KeepRun(w.s2c, [r], start, down, s.id, s.current.epoch, s.current.s2cData.key, base);
      ExtendRun(w.s2c, r, down + 1, s.id, s.current.epoch, s.current.s2cData.key, base + (down - start));
    }
  }

  lemma AppendDownControl(w: World, w1: World, turn: nat, r: Sealed)
    requires Downstream(w, turn, |w.s2c|)
    requires w1.client == w.client && w1.s2c == w.s2c + [r]
    requires w1.server.id == w.server.id && w1.server.current.epoch == w.server.current.epoch
    requires w1.server.current.s2cData == w.server.current.s2cData
    requires r.header.kind == Control
    ensures Downstream(w1, turn, |w.s2c|)
  {
    hide IsData;
  }

  // ---- Steps that move no record: the clock and the poll ----

  lemma TickKeepsInv(p: Primitives, env: Env, w: World, m: Marks, elapsed: nat)
    requires InvAt(p, w, m) && Take(p, env, w, Tick(elapsed)).Happens?
    ensures InvAt(p, Take(p, env, w, Tick(elapsed)).world, m)
  {
    hide Upstream, Downstream, Phase, Safety.Shape, OldTrafficOutstanding;
    var w1 := Take(p, env, w, Tick(elapsed)).world;
    assert w1 == w.(now := w.now + elapsed);
    if m.stale > 0 { OldIsOutstanding(p, w, m); }
    TickKeepsUpstream(w, w1, m);
    DownstreamUnchanged(w, w1, m);
    TickKeepsPhase(p, w, w1, m);
  }

  /** Time passes no further than the retired epoch's expiry while its traffic is outstanding. */
  predicate InTime(w: World, w1: World) {
    w.server.previous.Some? && OldTrafficOutstanding(w) ==> w1.now < w.server.previous.value.expiresAt
  }

  lemma TickKeepsUpstream(w: World, w1: World, m: Marks)
    requires Upstream(w, m.stale, m.up) && w1 == w.(now := w1.now) && InTime(w, w1)
    requires m.stale > 0 ==> OldTrafficOutstanding(w)
    ensures Upstream(w1, m.stale, m.up)
  {
    hide DataRun, OldTrafficOutstanding;
  }

  lemma TickKeepsPhase(p: Primitives, w: World, w1: World, m: Marks)
    requires Phase(p, w, m) && w1 == w.(now := w1.now) && InTime(w, w1)
    ensures Phase(p, w1, m)
  {
    hide TranscriptNext, LabelledTag, FrameBytes, UpdateInput, ConfirmationKey, DeriveKeys, BigEndian, InitPlaintext;
  }

  lemma OldIsOutstanding(p: Primitives, w: World, m: Marks)
    requires Traffic(p, w, m) && m.stale > 0
    ensures OldTrafficOutstanding(w)
  {
    assert w.c2s[0] in w.c2s;
  }

  /** A poll either does nothing or starts an update, and then REQUEST is the last record of its queue. */
  lemma PollKeepsInv(p: Primitives, env: Env, w: World, m: Marks)
    requires InvAt(p, w, m)
    ensures !Take(p, env, w, Poll).Rejects?
    ensures Take(p, env, w, Poll).Happens? ==> InvAt(p, Take(p, env, w, Poll).world, m)
  {
    hide RequestUpdateIfDue, Upstream, Downstream, Phase, TranscriptNext, RequestRecord;
    var s := w.server;
    ControlNumbersFit(p, w, m);
    PollOutcome(p, s, w.now);
    Safety.RequestUpdateIsQuiet(p, s, w.now);
    if Take(p, env, w, Poll).Happens? && RequestUpdateIfDue(p, s, w.now).1.value.Some? {
      var w1 := Take(p, env, w, Poll).world;
      PollLands(p, w, w1, m);
      RequestIsControl(s);
      AppendDownControl(w, w1, m.turn, RequestRecord(s, s.current.s2cControl.next));
      UpstreamAlike(w, w1, m);
    }
  }

  lemma ControlNumbersFit(p: Primitives, w: World, m: Marks)
    requires Phase(p, w, m)
    ensures w.server.current.s2cControl.next <= 3
  {
    hide TranscriptNext, UpdateInput, LabelledTag, FrameBytes, DeriveKeys;
  }

  /** What a poll does: it times out, or does nothing, or seals REQUEST. */
  lemma PollOutcome(p: Primitives, s: Session, now: nat)
    requires s.current.s2cControl.next < MAX_RECORDS_PER_EPOCH
    ensures var (s1, r) := RequestUpdateIfDue(p, s, now);
            var request := RequestRecord(s, s.current.s2cControl.next);
            && (r.Err? ==> r.error == UpdateTimedOut)
            && (r.Ok? && r.value.None? ==> s1 == s)
            && (r.Ok? && r.value.Some? ==>
                  && s.pending.None? && !s.updateRequested
                  && r.value.value == request
                  && s1 == s.(transcript := TranscriptNext(p, s.transcript, request),
                              current := s.current.(s2cControl :=
                                                    s.current.s2cControl.(next := s.current.s2cControl.next + 1)),
                              updateRequested := true,
                              updateDeadline := Some(now + UPDATE_TIMEOUT)))
  {
    hide TranscriptNext, BigEndian;
    assert |FrameBytes(Frame(0x04, 0, BigEndian(s.current.epoch, 4)))| == 8;
  }

  lemma RequestIsControl(s: Session)
    ensures s.current.s2cControl.kind == Control ==> RequestRecord(s, s.current.s2cControl.next).header.kind == Control
  {
    hide FrameBytes;
  }

  /** REQUEST is then the last record of its queue. */
  lemma PollLands(p: Primitives, w: World, w1: World, m: Marks)
    requires Phase(p, w, m) && w.server.current.epoch + 1 < U32_LIMIT && w.server.pending.None?
             && !w.server.updateRequested
    requires var s := w.server;
             var request := RequestRecord(s, s.current.s2cControl.next);
             w1 == w.(server := s.(transcript := TranscriptNext(p, s.transcript, request),
                                   current := s.current.(s2cControl :=
                                                         s.current.s2cControl.(next := s.current.s2cControl.next + 1)),
                                   updateRequested := true,
                                   updateDeadline := w1.server.updateDeadline),
                      s2c := w.s2c + [request])
    ensures Phase(p, w1, m) && m.down == |w.s2c|
  {
    hide TranscriptNext, UpdateInput, LabelledTag, FrameBytes, DeriveKeys, Initiated, Acked, Committed;
    NotWaiting(p, w, m);
    if Idle(w, m.up, m.down) {
      assert Requested(p, w1, m.up, m.down);
    } else {
      assert Rotated(p, w1, m.turn, m.down);
    }
  }

  /** While no update is requested the phase is Idle or Rotated. */
  lemma NotWaiting(p: Primitives, w: World, m: Marks)
    requires Phase(p, w, m) && w.server.pending.None? && !w.server.updateRequested
    ensures Idle(w, m.up, m.down) || Rotated(p, w, m.turn, m.down)
  {
    hide TranscriptNext, UpdateInput, LabelledTag, FrameBytes, DeriveKeys, Idle, Rotated;
  }

  lemma UpstreamAlike(w: World, w1: World, m: Marks)
    requires Upstream(w, m.stale, m.up)
    requires w1.c2s == w.c2s && w1.client == w.client && w1.now == w.now
    requires w1.server.id == w.server.id && w1.server.previous == w.server.previous
    requires w1.server.current.epoch == w.server.current.epoch && w1.server.current.c2sData == w.server.current.c2sData
    ensures Upstream(w1, m.stale, m.up)
  {
    hide DataRun;
  }

  // ---- Data is sent ----

  /** The server's session, up to its data sender and traffic counters, is what the phases speak of. */
  ghost predicate SameButTraffic(s: Session, s1: Session) {
    s1 == s.(current := s.current.(s2cData := s1.current.s2cData, c2sData := s1.current.c2sData),
             dataRecords := s1.dataRecords, plaintextBytes := s1.plaintextBytes)
  }

  lemma DownDataKeepsPhase(p: Primitives, w: World, w1: World, m: Marks, m1: Marks, r: Sealed)
    requires Phase(p, w, m) && Downstream(w, m.turn, m.down)
    requires SameButTraffic(w.server, w1.server)
    requires w1 == w.(server := w1.server, s2c := w.s2c + [r])
    requires m1 == m.(down := if m.down == |w.s2c| then |w1.s2c| else m.down)
    ensures Phase(p, w1, m1)
  {
    hide TranscriptNext, LabelledTag, UpdateInput, ConfirmationKey, FrameBytes, DataRun, DeriveKeys, BigEndian,
         InitPlaintext;
  }

  lemma SealDataWorks(p: Primitives, w: World, m: Marks, plaintext: Bytes)
    requires Traffic(p, w, m) && GoodPlaintext(plaintext) && w.server.current.s2cData.next < MAX_RECORDS_PER_EPOCH
    ensures var (s1, r) := SealData(w.server, plaintext, false);
            var s := w.server;
            && r.Ok?
            && IsData(r.value, s.id, s.current.epoch, s.current.s2cData.key, s.current.s2cData.next)
            && s1 == s.(current := s.current.(s2cData := s.current.s2cData.(next := s.current.s2cData.next + 1)),
                        dataRecords := s.dataRecords + 1, plaintextBytes := s.plaintextBytes + |plaintext|)
            && Safety.Shape(p, s1)
            && s1.plaintextBytes <= s1.dataRecords * MAX_CIPHERTEXT_LEN
  {
    hide Upstream, Downstream;
    CountersStaySmall(p, w, m, |plaintext|);
  }

  lemma ServerSendsKeepsInv(p: Primitives, env: Env, w: World, m: Marks, frames: seq<Frame>)
    requires InvAt(p, w, m)
    ensures !Take(p, env, w, ServerSends(frames)).Rejects?
    ensures Take(p, env, w, ServerSends(frames)).Happens? ==> Inv(p, Take(p, env, w, ServerSends(frames)).world)
  {
    hide FramesBytes, GoodPlaintext, SealData, Phase, IsData, Safety.Shape, DataRun, Downstream;
    if Take(p, env, w, ServerSends(frames)) != Excluded {
      GoodFramesParse(frames);
      SealDataWorks(p, w, m, FramesBytes(frames));
      var w1 := Take(p, env, w, ServerSends(frames)).world;
      var r := SealData(w.server, FramesBytes(frames), false).1.value;
      AppendDownData(w, w1, m.turn, m.down, r);
      var m1 := m.(down := if m.down == |w.s2c| then |w1.s2c| else m.down);
      DownDataKeepsPhase(p, w, w1, m, m1, r);
      assert InvAt(p, w1, m1);
    }
  }

  /** The traffic counters are far from overflowing in a run. */
  lemma CountersStaySmall(p: Primitives, w: World, m: Marks, size: nat)
    requires Traffic(p, w, m) && size <= MAX_CIPHERTEXT_LEN
    ensures w.server.current.c2sData.window.Next() <= MAX_RECORDS_PER_EPOCH
    ensures w.server.dataRecords <= 2 * MAX_RECORDS_PER_EPOCH
    ensures w.server.dataRecords + 1 < U64_LIMIT && w.server.plaintextBytes + size < U64_LIMIT
    ensures (w.server.dataRecords + 1) * MAX_CIPHERTEXT_LEN >= w.server.plaintextBytes + size
  {
  }

  /** While both ends are in one epoch they hold the same keys for it. */
  lemma KeysAgree(p: Primitives, w: World, m: Marks)
    requires Traffic(p, w, m) && w.client.epoch == w.server.current.epoch
    ensures var s, k := w.server.current, w.client.keys;
            && k.c2sData == s.c2sData.key && k.s2cData == s.s2cData.key
            && k.c2sControl == s.c2sControl.key && k.s2cControl == s.s2cControl.key
  {
    hide Upstream, Downstream, TrafficKey;
  }

  lemma RetiredKeysAgree(p: Primitives, w: World, m: Marks)
    requires Traffic(p, w, m) && Rotated(p, w, m.turn, m.down)
    ensures w.server.previous.value.state.epoch == w.client.epoch
    ensures w.server.previous.value.state.c2sData.key == w.client.keys.c2sData
  {
    hide Upstream, Downstream, TrafficKey, TranscriptNext, LabelledTag, FrameBytes;
  }

  lemma UpDataKeepsPhase(p: Primitives, w: World, w1: World, m: Marks, m1: Marks, r: Sealed)
    requires Phase(p, w, m) && Upstream(w, m.stale, m.up)
    requires AwaitsDone(w.client) ==> w.late < OLD_RECORDS_IN_FLIGHT
    requires w1 == w.(client := w.client.(dataNumber := w.client.dataNumber + 1), c2s := w.c2s + [r],
                      late := if AwaitsDone(w.client) then w.late + 1 else w.late)
    requires m1 == if w.client.epoch < w.server.current.epoch then m.(stale := |w1.c2s|, up := |w1.c2s|)
                   else m.(up := if m.up == |w.c2s| then |w1.c2s| else m.up)
    ensures Phase(p, w1, m1)
  {
    hide TranscriptNext, LabelledTag, UpdateInput, ConfirmationKey, FrameBytes, DataRun, DeriveKeys, BigEndian,
         InitPlaintext;
  }

  lemma ClientSendsKeepsInv(p: Primitives, env: Env, w: World, m: Marks, frames: seq<Frame>)
    requires InvAt(p, w, m)
    ensures !Take(p, env, w, ClientSends(frames)).Rejects?
    ensures Take(p, env, w, ClientSends(frames)).Happens? ==> Inv(p, Take(p, env, w, ClientSends(frames)).world)
  {
    if Take(p, env, w, ClientSends(frames)) != Excluded {
      ClientSendsData(p, env, w, m, frames);
    }
  }

  lemma ClientSendsData(p: Primitives, env: Env, w: World, m: Marks, frames: seq<Frame>)
    requires InvAt(p, w, m) && Take(p, env, w, ClientSends(frames)) != Excluded
    ensures Take(p, env, w, ClientSends(frames)).Happens? && Inv(p, Take(p, env, w, ClientSends(frames)).world)
  {
    hide FramesBytes, GoodPlaintext, Phase, Safety.Shape, DataRun, Downstream, Rotated;
    GoodFramesParse(frames);
    EpochsFit(p, w, m);
    var s, c := w.server, w.client;
    var w1 := Take(p, env, w, ClientSends(frames)).world;
    var r := SendData(c, FramesBytes(frames)).1.value;
    var m1: Marks;
    if c.epoch == s.current.epoch {
      KeysAgree(p, w, m);
      AppendCurrentData(w, w1, m.stale, m.up, r);
      m1 := m.(up := if m.up == |w.c2s| then |w1.c2s| else m.up);
    } else {
      OnlyRotatedIsBehind(p, w, m);
      RetiredKeysAgree(p, w, m);
      AppendRetiredData(w, w1, m.stale, m.up, r);
      m1 := m.(stale := |w1.c2s|, up := |w1.c2s|);
    }
    UpDataKeepsPhase(p, w, w1, m, m1, r);
    DownstreamUnchanged(w, w1, m);
    assert InvAt(p, w1, m1);
  }

  lemma EpochsFit(p: Primitives, w: World, m: Marks)
    requires Traffic(p, w, m)
    ensures w.client.epoch <= w.server.current.epoch < U32_LIMIT
  {
    hide Upstream, Downstream;
  }

  lemma DownstreamUnchanged(w: World, w1: World, m: Marks)
    requires Downstream(w, m.turn, m.down)
    requires w1.s2c == w.s2c && w1.server.id == w.server.id && w1.server.current.epoch == w.server.current.epoch
    requires w1.server.current.s2cData == w.server.current.s2cData
    requires w1.client.epoch == w.client.epoch && w1.client.keys == w.client.keys && w1.client.id == w.client.id
    requires w1.client.dataWindow == w.client.dataWindow
    ensures Downstream(w1, m.turn, m.down)
  {
    hide DataRun;
  }

  lemma OnlyRotatedIsBehind(p: Primitives, w: World, m: Marks)
    requires InvAt(p, w, m) && w.client.epoch != w.server.current.epoch
    ensures Rotated(p, w, m.turn, m.down)
    ensures AwaitsDone(w.client) && w.late + w.server.previous.value.remaining == OLD_RECORDS_IN_FLIGHT + |w.c2s|
    ensures w.now < w.server.previous.value.expiresAt && w.server.previous.value.state.secret == w.client.secret
  {
    hide TranscriptNext, LabelledTag, UpdateInput, ConfirmationKey, FrameBytes, DataRun, DeriveKeys, BigEndian,
         InitPlaintext;
    hide Upstream, Downstream, Safety.Shape, HoldsNext;
  }

  // ---- The server takes data ----

  lemma StaleDataKeepsPhase(p: Primitives, w: World, w1: World, m: Marks, state: Epoch)
    requires Phase(p, w, m) && Upstream(w, m.stale, m.up) && m.stale > 0
    requires w.server.previous.Some? && w.server.previous.value.remaining > 0
             && state.secret == w.server.previous.value.state.secret
    requires w1 == w.(c2s := w.c2s[1..],
                      server := w.server.(previous :=
                                          Some(w.server.previous.value.(state := state,
                                            remaining := w.server.previous.value.remaining - 1))))
    ensures Phase(p, w1, m.(stale := m.stale - 1, up := m.up - 1))
    ensures Advances(w, w1)
  {
    hide TranscriptNext, LabelledTag, UpdateInput, ConfirmationKey, FrameBytes, DataRun, DeriveKeys, BigEndian,
         InitPlaintext;
  }

  lemma StaleHead(w: World, m: Marks)
    requires Upstream(w, m.stale, m.up) && m.stale > 0
    ensures var data := w.server.previous.value.state.c2sData;
            && IsData(w.c2s[0], w.server.id, w.server.previous.value.state.epoch, data.key, data.window.Next())
            && data.window.Next() < MAX_RECORDS_PER_EPOCH
  {
    hide IsData;
  }

  lemma StalePop(w: World, w1: World, m: Marks)
    requires Upstream(w, m.stale, m.up) && m.stale > 0 && w1.server.previous.Some?
    requires var previous := w.server.previous.value;
             var state := w1.server.previous.value.state;
             && w1 == w.(c2s := w.c2s[1..],
                         server := w.server.(previous :=
                                             Some(previous.(state := state, remaining := previous.remaining - 1))))
             && state.epoch == previous.state.epoch && state.c2sData.key == previous.state.c2sData.key
             && state.c2sData.window.Next() == previous.state.c2sData.window.Next() + 1
    ensures Upstream(w1, m.stale - 1, m.up - 1)
  {
    hide DataRun;
    var s := w.server;
    var data := s.previous.value.state.c2sData;
    PopRun(w.c2s, 0, m.stale, s.id, s.previous.value.state.epoch, data.key, data.window.Next());
    PopRun(w.c2s, m.stale, m.up, s.id, s.current.epoch, s.current.c2sData.key, s.current.c2sData.window.Next());
    PopRun(w.c2s, Min(m.up + 1, |w.c2s|), |w.c2s|, s.id, s.current.epoch, s.current.c2sData.key,
           s.current.c2sData.window.Next() + (m.up - m.stale));
  }

  lemma ServerTakesStaleData(p: Primitives, env: Env, w: World, m: Marks)
    requires InvAt(p, w, m) && m.stale > 0
    ensures Take(p, env, w, ServerReceives).Happens? && Inv(p, Take(p, env, w, ServerReceives).world)
    ensures Advances(w, Take(p, env, w, ServerReceives).world)
  {
    hide Phase, ProcessRecord, Downstream, IsData, DataRun;
    var previous := w.server.previous.value;
    StaleHead(w, m);
    ServerTakesOldData(p, env, w.server, w.c2s[0], w.now);
    NextIsTaken(previous.state.c2sData.window, previous.state.c2sData.window.Next());
    var w1 := Take(p, env, w, ServerReceives).world;
    assert w.s2c + [] == w.s2c;
    StalePop(w, w1, m);
    StaleDataKeepsPhase(p, w, w1, m, w1.server.previous.value.state);
    DownstreamUnchanged(w, w1, m);
    assert InvAt(p, w1, m.(stale := m.stale - 1, up := m.up - 1));
  }

  lemma CurrentDataKeepsPhase(p: Primitives, w: World, w1: World, m: Marks)
    requires Phase(p, w, m) && Upstream(w, m.stale, m.up) && m.stale == 0 < m.up
    requires w1 == w.(c2s := w.c2s[1..], server := w1.server)
    requires SameButTraffic(w.server, w1.server.(previous := w.server.previous))
    ensures Phase(p, w1, m.(up := m.up - 1))
    ensures Advances(w, w1)
  {
    hide TranscriptNext, LabelledTag, UpdateInput, ConfirmationKey, FrameBytes, DataRun, DeriveKeys, BigEndian,
         InitPlaintext;
  }

  lemma CurrentHead(w: World, m: Marks)
    requires Upstream(w, m.stale, m.up) && m.stale == 0 < m.up
    ensures var s := w.server;
            IsData(w.c2s[0], s.id, s.current.epoch, s.current.c2sData.key, s.current.c2sData.window.Next())
    ensures w.client.epoch == w.server.current.epoch
    ensures w.client.dataNumber > w.server.current.c2sData.window.Next()
  {
    hide IsData;
  }

  lemma CurrentPop(w: World, w1: World, m: Marks)
    requires Upstream(w, m.stale, m.up) && m.stale == 0 < m.up
    requires w1 == w.(c2s := w.c2s[1..], server := w1.server)
    requires var data, data1 := w.server.current.c2sData, w1.server.current.c2sData;
             data1.key == data.key && data1.window.Next() == data.window.Next() + 1
    requires w1.server.id == w.server.id && w1.server.current.epoch == w.server.current.epoch
    ensures Upstream(w1, 0, m.up - 1)
  {
    hide DataRun;
    var s := w.server;
    var next := s.current.c2sData.window.Next();
    PopRun(w.c2s, 0, m.up, s.id, s.current.epoch, s.current.c2sData.key, next);
    PopRun(w.c2s, Min(m.up + 1, |w.c2s|), |w.c2s|, s.id, s.current.epoch, s.current.c2sData.key, next + m.up);
  }

  lemma ServerTakesCurrentData(p: Primitives, env: Env, w: World, m: Marks)
    requires InvAt(p, w, m) && m.stale == 0 < m.up
    ensures Take(p, env, w, ServerReceives).Happens? && Inv(p, Take(p, env, w, ServerReceives).world)
    ensures Advances(w, Take(p, env, w, ServerReceives).world)
  {
    hide Phase, ProcessRecord, Downstream, IsData, DataRun;
    var s := w.server;
    var data := s.current.c2sData;
    CurrentHead(w, m);
    DataSize(w.c2s[0], s.id, s.current.epoch, data.key, data.window.Next());
    CountersStaySmall(p, w, m, |w.c2s[0].plaintext|);
    ServerTakesData(p, env, s, w.c2s[0], w.now);
    NextIsTaken(data.window, data.window.Next());
    var w1 := Take(p, env, w, ServerReceives).world;
    assert w.s2c + [] == w.s2c;
    CurrentPop(w, w1, m);
    CurrentDataKeepsPhase(p, w, w1, m);
    DownstreamUnchanged(w, w1, m);
    assert InvAt(p, w1, m.(up := m.up - 1));
  }

  lemma DataSize(r: Sealed, id: Bytes, epoch: nat, key: Digest, number: nat)
    requires IsData(r, id, epoch, key, number)
    ensures |r.plaintext| <= MAX_CIPHERTEXT_LEN && r.header.kind == Data
  {
  }

  // ---- The server takes a control record ----

  /** The server's queue ends in the records it just sealed; the client's lost its first record. */
  lemma InitKeepsInv(p: Primitives, env: Env, w: World, m: Marks)
    requires InvAt(p, w, m) && Initiated(p, w, m.up, m.down, m.nonce) && m.stale == m.up == 0
    ensures Take(p, env, w, ServerReceives).Happens? && Inv(p, Take(p, env, w, ServerReceives).world)
    ensures Advances(w, Take(p, env, w, ServerReceives).world)
  {
    hide TranscriptNext, LabelledTag, UpdateInput, FrameBytes, IsData, ProcessRecord, InitBody, NextPending, Upstream,
         Downstream, ServerControl;
    KeysAgree(p, w, m);
    InitOnTop(p, w, m);
    ServerTakesInit(p, env, w.server, w.c2s[0], m.nonce, w.now);
    InitLandsAcked(p, w, Take(p, env, w, ServerReceives).world, m);
  }

  /** The INIT in the queue is the one the server expects. */
  lemma InitOnTop(p: Primitives, w: World, m: Marks)
    requires InvAt(p, w, m) && Initiated(p, w, m.up, m.down, m.nonce) && m.up == 0
    ensures var s := w.server;
            var next := s.current.c2sControl.window.Next();
            var tag := p.hmac(s.current.secret,
                              UpdateInput(s.id, s.current.epoch, s.current.epoch + 1, m.nonce, s.transcript));
            && next < U32_LIMIT && s.current.s2cControl.next < MAX_RECORDS_PER_EPOCH
            && w.c2s[0] == SealAs(s.id, Control, s.current.epoch, s.current.c2sControl.key, next,
                                  FrameBytes(Frame(0x05, 0, InitBody(s.current.epoch, m.nonce, tag))))
  {
    hide TranscriptNext, LabelledTag, UpdateInput, FrameBytes, Upstream, Downstream, Phase;
    KeysAgree(p, w, m);
  }

  lemma InitLandsAcked(p: Primitives, w: World, w1: World, m: Marks)
    requires InvAt(p, w, m) && Initiated(p, w, m.up, m.down, m.nonce) && m.stale == m.up == 0
    requires w1 == w.(server := w1.server, c2s := w.c2s[1..], s2c := w1.s2c)
    requires
      var s := w.server;
      var window := s.current.c2sControl.window;
      var context := p.sha256(UpdateInput(s.id, s.current.epoch, s.current.epoch + 1, m.nonce, s.transcript));
      var pending := NextPending(p, s.id, s.current.secret, s.current.epoch, context);
      var ack := AckRecord(p, s, s.current.s2cControl.next, pending.proof);
      && w1.s2c == w.s2c + [ack]
      && w1.server == s.(
           transcript := TranscriptNext(p, TranscriptNext(p, s.transcript, w.c2s[0]), ack),
           current := s.current.(c2sControl := s.current.c2sControl.(window := window.Add(window.Next())),
                                 s2cControl := s.current.s2cControl.(next := s.current.s2cControl.next + 1)),
           pending := Some(pending),
           previous := w1.server.previous,
           updateRequested := true,
           updateDeadline := Some(w.now + UPDATE_TIMEOUT))
      && (w1.server.previous == s.previous || w1.server.previous == None)
    ensures Inv(p, w1) && Advances(w, w1)
  {
    hide TranscriptNext, LabelledTag, UpdateInput, ConfirmationKey, FrameBytes, IsData, TrafficKey;
    var s := w.server;
    NextIsTaken(s.current.c2sControl.window, s.current.c2sControl.window.Next());
    var m1 := Marks(0, |w1.c2s|, m.turn, |w.s2c|, m.nonce);
    PopRun(w.c2s, 1, |w.c2s|, s.id, s.current.epoch, s.current.c2sData.key, s.current.c2sData.window.Next());
    AppendDownControl(w, w1, m.turn, w1.s2c[|w.s2c|]);
    assert Acked(p, w1, m1.stale, m1.up, m1.down);
    assert Traffic(p, w1, m1);
    assert InvAt(p, w1, m1);
  }

  lemma CommitKeepsInv(p: Primitives, env: Env, w: World, m: Marks)
    requires InvAt(p, w, m) && Committed(p, w, m.stale, m.up, m.down) && m.stale == m.up == 0
    ensures Take(p, env, w, ServerReceives).Happens? && Inv(p, Take(p, env, w, ServerReceives).world)
    ensures Advances(w, Take(p, env, w, ServerReceives).world)
  {
    hide TranscriptNext, LabelledTag, UpdateInput, ConfirmationKey, FrameBytes, IsData, ActOn, Open, AcceptUpdateCommit,
         TrafficKey;
    var s, c := w.server, w.client;
    var r := w.c2s[0];
    var pending := s.pending.value;
    var tag := LabelledTag(p, pending.proof.confirmKey, ClientCommit, pending.proof.context);
    var body := BigEndian(pending.state.epoch, 4) + tag;
    var f := Frame(0x07, 0, body);
    assert r.plaintext == FrameBytes(f);
    CommitSize(pending.state.epoch, tag);
    ServerOpensPending(p, s, r, r.plaintext, w.now);
    NextIsTaken(pending.state.c2sControl.window, 0);
    var s1 := Open(s, r, w.now).0;
    OneFrameIsHandled(p, s1, r, Pending_, f, env, w.now);
    ServerAcceptsCommit(p, s1, r, body, w.now);
    var w1 := Take(p, env, w, ServerReceives).world;
    CommitLandsRotated(p, w, w1, m);
  }

  lemma CommitSize(epoch: nat, tag: Digest)
    ensures |FrameBytes(Frame(0x07, 0, BigEndian(epoch, 4) + tag))| == 40
  {
  }

  lemma CommitLandsRotated(p: Primitives, w: World, w1: World, m: Marks)
    requires InvAt(p, w, m) && Committed(p, w, m.stale, m.up, m.down) && m.stale == m.up == 0
    requires w1 == w.(server := w1.server, c2s := w.c2s[1..], s2c := w1.s2c)
    requires
      var s := w.server;
      var pending := s.pending.value;
      var control := pending.state.c2sControl;
      var state := pending.state.(c2sControl := control.(window := control.window.Add(0)));
      var done := DoneRecord(p, s.(current := state), 0, pending.proof.confirmKey, pending.proof.context);
      && w1.s2c == w.s2c + [done]
      && w1.server == s.(
           transcript := TranscriptNext(p, TranscriptNext(p, s.transcript, w.c2s[0]), done),
           current := state.(s2cControl := state.s2cControl.(next := 1)),
           pending := None,
           previous := Some(Previous(s.current, w.now + OLD_EPOCH_GRACE, OLD_EPOCH_RECORDS)),
           epochStarted := w.now, dataRecords := 0, plaintextBytes := 0,
           updateRequested := false, updateDeadline := None)
    ensures Inv(p, w1) && Advances(w, w1)
  {
    hide TranscriptNext, LabelledTag, UpdateInput, ConfirmationKey, FrameBytes, IsData, TrafficKey;
    var s := w.server;
    KeysAgree(p, w, m);
    NextIsTaken(s.pending.value.state.c2sControl.window, 0);
    var m1 := Marks(|w1.c2s|, |w1.c2s|, |w.s2c|, |w1.s2c|, m.nonce);
    PopRun(w.c2s, 1, |w.c2s|, s.id, s.current.epoch, s.current.c2sData.key, s.current.c2sData.window.Next());
    KeepRun(w.s2c, [w1.s2c[|w.s2c|]], 0, |w.s2c|, s.id, s.current.epoch, s.current.s2cData.key,
            w.client.dataWindow.Next());
    assert Rotated(p, w1, m1.turn, m1.down);
    assert Upstream(w1, m1.stale, m1.up);
    assert Downstream(w1, m1.turn, m1.down);
    assert Traffic(p, w1, m1);
    assert InvAt(p, w1, m1);
  }

  lemma ServerReceivesKeepsInv(p: Primitives, env: Env, w: World, m: Marks)
    requires InvAt(p, w, m)
    ensures !Take(p, env, w, ServerReceives).Rejects?
    ensures Take(p, env, w, ServerReceives).Happens? ==>
              Inv(p, Take(p, env, w, ServerReceives).world) && Advances(w, Take(p, env, w, ServerReceives).world)
  {
    hide Take, Safety.Shape, TranscriptNext, LabelledTag, UpdateInput, ConfirmationKey, FrameBytes, DataRun, DeriveKeys,
         BigEndian, InitPlaintext;
    if w.c2s != [] {
      if m.stale > 0 {
        ServerTakesStaleData(p, env, w, m);
      } else if m.up > 0 {
        ServerTakesCurrentData(p, env, w, m);
      } else if Initiated(p, w, m.up, m.down, m.nonce) {
        InitKeepsInv(p, env, w, m);
      } else {
        CommitKeepsInv(p, env, w, m);
      }
    } else {
      NothingToTake(p, env, w);
    }
  }

  lemma NothingToTake(p: Primitives, env: Env, w: World)
    ensures w.c2s == [] ==> Take(p, env, w, ServerReceives) == Excluded
    ensures forall nonce | w.s2c == [] :: Take(p, env, w, ClientReceives(nonce)) == Excluded
  {
  }

  // ---- The client takes a record ----

  lemma DownPopKeepsPhase(p: Primitives, w: World, w1: World, m: Marks, m1: Marks)
    requires Phase(p, w, m) && Downstream(w, m.turn, m.down) && m.down > 0
    requires w.client.epoch != w.server.current.epoch ==> m.turn > 0
    requires w1 == w.(client := w.client.(dataWindow := w1.client.dataWindow), s2c := w.s2c[1..])
    requires m1 == m.(down := m.down - 1, turn := if w.client.epoch == w.server.current.epoch then m.turn
                      else m.turn - 1)
    ensures Phase(p, w1, m1)
    ensures Advances(w, w1)
  {
    hide TranscriptNext, LabelledTag, UpdateInput, ConfirmationKey, FrameBytes, DataRun, DeriveKeys, BigEndian,
         InitPlaintext;
  }

  /** The first record of the downward queue is data of the client's epoch. */
  predicate DataComes(w: World, m: Marks) {
    if w.client.epoch == w.server.current.epoch
    then m.down > 0 && w.server.id == w.client.id && w.client.keys.s2cData == w.server.current.s2cData.key
    else m.turn > 0
  }

  lemma DownHead(w: World, m: Marks)
    requires Downstream(w, m.turn, m.down) && w.s2c != [] && DataComes(w, m)
    ensures var c := w.client; IsData(w.s2c[0], c.id, c.epoch, c.keys.s2cData, c.dataWindow.Next())
    ensures m.down > 0
  {
    hide IsData;
  }

  lemma DownPop(w: World, w1: World, m: Marks)
    requires Downstream(w, m.turn, m.down) && w.s2c != [] && DataComes(w, m)
    requires w1 == w.(client := w.client.(dataWindow := w1.client.dataWindow), s2c := w.s2c[1..])
    requires w1.client.dataWindow.Next() == w.client.dataWindow.Next() + 1
    ensures m.down > 0
    ensures Downstream(w1, if w.client.epoch == w.server.current.epoch then m.turn else m.turn - 1, m.down - 1)
  {
    hide DataRun;
    var s, c := w.server, w.client;
    var next := c.dataWindow.Next();
    if c.epoch == s.current.epoch {
      PopRun(w.s2c, 0, m.down, s.id, s.current.epoch, s.current.s2cData.key, next);
      PopRun(w.s2c, Min(m.down + 1, |w.s2c|), |w.s2c|, s.id, s.current.epoch, s.current.s2cData.key, next + m.down);
    } else {
      PopRun(w.s2c, 0, m.turn, c.id, c.epoch, c.keys.s2cData, next);
      PopRun(w.s2c, m.turn + 1, m.down, s.id, s.current.epoch, s.current.s2cData.key, 0);
      PopRun(w.s2c, Min(m.down + 1, |w.s2c|), |w.s2c|, s.id, s.current.epoch, s.current.s2cData.key,
             m.down - (m.turn + 1));
    }
  }

  lemma ClientTakesQueuedData(p: Primitives, env: Env, w: World, m: Marks, nonce: Digest)
    requires InvAt(p, w, m) && w.s2c != []
    requires if w.client.epoch == w.server.current.epoch then m.down > 0 else m.turn > 0
    ensures Take(p, env, w, ClientReceives(nonce)).Happens? && Inv(p, Take(p, env, w, ClientReceives(nonce)).world)
    ensures Advances(w, Take(p, env, w, ClientReceives(nonce)).world)
  {
    hide Phase, Receive, Upstream, Downstream, IsData, Safety.Shape;
    var s, c := w.server, w.client;
    var same := c.epoch == s.current.epoch;
    var next := c.dataWindow.Next();
    if same { KeysAgree(p, w, m); }
    DownHead(w, m);
    DownNumbersFit(p, w, m);
    ClientTakesData(p, c, w.s2c[0], nonce, w.now);
    NextIsTaken(c.dataWindow, next);
    var w1 := Take(p, env, w, ClientReceives(nonce)).world;
    assert w.c2s + [] == w.c2s;
    var m1 := m.(down := m.down - 1, turn := if same then m.turn else m.turn - 1);
    DownPop(w, w1, m);
    DownPopKeepsPhase(p, w, w1, m, m1);
    UpstreamUnchanged(w, w1, m);
    assert InvAt(p, w1, m1);
  }

  /** A data record on its way to the client has a number below 2^32, also one of a retired epoch. */
  lemma DownNumbersFit(p: Primitives, w: World, m: Marks)
    requires Traffic(p, w, m)
    requires if w.client.epoch == w.server.current.epoch then m.down > 0 else m.turn > 0
    ensures w.client.dataWindow.Next() < U32_LIMIT
  {
    hide Upstream, Safety.Shape;
  }

  lemma UpstreamUnchanged(w: World, w1: World, m: Marks)
    requires Upstream(w, m.stale, m.up)
    requires w1.c2s == w.c2s && w1.server == w.server && w1.now == w.now
    requires w1.client.epoch == w.client.epoch && w1.client.dataNumber == w.client.dataNumber
    ensures Upstream(w1, m.stale, m.up)
  {
    hide DataRun;
  }

  lemma RequestKeepsInv(p: Primitives, env: Env, w: World, m: Marks, nonce: Digest)
    requires InvAt(p, w, m) && Requested(p, w, m.up, m.down) && m.down == 0
    ensures Take(p, env, w, ClientReceives(nonce)).Happens? && Inv(p, Take(p, env, w, ClientReceives(nonce)).world)
    ensures Advances(w, Take(p, env, w, ClientReceives(nonce)).world)
  {
    hide TranscriptNext, LabelledTag, UpdateInput, ConfirmationKey, FrameBytes, IsData, OpenRecord, TrafficKey,
         InitPlaintext;
    hide Receive, Dispatch, AcceptUpdateRequest;
    var s, c := w.server, w.client;
    var r := w.s2c[0];
    KeysAgree(p, w, m);
    EpochsFit(p, w, m);
    var f := Frame(0x04, 0, BigEndian(c.epoch, 4));
    assert r.plaintext == FrameBytes(f);
    var next := c.controlWindow.Next();
    ClientOpensControl(c, r, r.plaintext);
    NextIsTaken(c.controlWindow, next);
    var c1 := c.(controlWindow := c.controlWindow.Add(next));
    ClientActsOnOneFrame(p, c, r, c1, Current, f, nonce, w.now);
    DispatchesRequest(p, c1, r, f, nonce, w.now);
    ClientAcceptsRequest(p, c1, r, f.body, nonce, w.now);
    var w1 := Take(p, env, w, ClientReceives(nonce)).world;
    RequestLandsInitiated(p, w, w1, m, nonce);
  }

  lemma DispatchesRequest(p: Primitives, c: Client, r: Sealed, f: Frame, nonce: Digest, now: nat)
    ensures f.frameType == 0x04 ==>
      var (c1, outcome) := AcceptUpdateRequest(p, c, r, f.body, nonce, now);
      Dispatch(p, c, r, Current, f, nonce, now)
        == (c1, if outcome.Ok? then Ok(Some(outcome.value)) else Err(outcome.error))
    ensures f.frameType == 0x06 ==>
      var (c1, outcome) := AcceptUpdateAck(p, c, r, f.body);
      Dispatch(p, c, r, Current, f, nonce, now)
        == (c1, if outcome.Ok? then Ok(Some(outcome.value)) else Err(outcome.error))
  {
    hide AcceptUpdateRequest, AcceptUpdateAck;
  }

  lemma RequestLandsInitiated(p: Primitives, w: World, w1: World, m: Marks, nonce: Digest)
    requires InvAt(p, w, m) && Requested(p, w, m.up, m.down) && m.down == 0
    requires
      var c := w.client;
      var noted := TranscriptNext(p, c.transcript, w.s2c[0]);
      var init := InitRecord(p, c, c.controlNumber, nonce, noted);
      var context := p.sha256(UpdateInput(c.id, c.epoch, c.epoch + 1, nonce, noted));
      w1 == w.(s2c := w.s2c[1..], c2s := w.c2s + [init],
               client := c.(controlWindow := c.controlWindow.Add(c.controlWindow.Next()),
                            transcript := TranscriptNext(p, noted, init),
                            controlNumber := c.controlNumber + 1,
                            pending := Some(PendingRekey(c.epoch + 1, context, w.now, None))))
    ensures Inv(p, w1) && Advances(w, w1)
  {
    hide TranscriptNext, LabelledTag, UpdateInput, ConfirmationKey, FrameBytes, IsData, TrafficKey, InitPlaintext,
         Safety.Shape;
    var s, c := w.server, w.client;
    NextIsTaken(c.controlWindow, c.controlWindow.Next());
    var m1 := m.(up := |w.c2s|, down := |w1.s2c|, nonce := nonce);
    AppendUpControl(w, w1, m.stale, w1.c2s[|w.c2s|]);
    PopRun(w.s2c, 1, |w.s2c|, s.id, s.current.epoch, s.current.s2cData.key, c.dataWindow.Next());
    assert Initiated(p, w1, m1.up, m1.down, m1.nonce);
    assert Traffic(p, w1, m1);
    assert InvAt(p, w1, m1);
  }

  lemma AckKeepsInv(p: Primitives, env: Env, w: World, m: Marks, nonce: Digest)
    requires InvAt(p, w, m) && Acked(p, w, m.stale, m.up, m.down) && m.down == 0
    ensures Take(p, env, w, ClientReceives(nonce)).Happens? && Inv(p, Take(p, env, w, ClientReceives(nonce)).world)
    ensures Advances(w, Take(p, env, w, ClientReceives(nonce)).world)
  {
    hide TranscriptNext, LabelledTag, UpdateInput, ConfirmationKey, FrameBytes, IsData, OpenRecord, TrafficKey;
    hide Receive, Dispatch, AcceptUpdateAck;
    var s, c := w.server, w.client;
    var r := w.s2c[0];
    KeysAgree(p, w, m);
    PendingFits(p, w, m);
    var tag := LabelledTag(p, s.pending.value.proof.confirmKey, ServerAck, s.pending.value.proof.context);
    var f := Frame(0x06, 0, BigEndian(c.epoch + 1, 4) + tag);
    assert r.plaintext == FrameBytes(f);
    var next := c.controlWindow.Next();
    ClientOpensControl(c, r, r.plaintext);
    NextIsTaken(c.controlWindow, next);
    var c1 := c.(controlWindow := c.controlWindow.Add(next));
    ClientActsOnOneFrame(p, c, r, c1, Current, f, nonce, w.now);
    DispatchesRequest(p, c1, r, f, nonce, w.now);
    assert DeriveNext(p, c1, c1.pending.value).confirmKey == s.pending.value.proof.confirmKey;
    ClientAcceptsAck(p, c1, r, f.body);
    var w1 := Take(p, env, w, ClientReceives(nonce)).world;
    AckLandsCommitted(p, w, w1, m);
  }

  lemma PendingFits(p: Primitives, w: World, m: Marks)
    requires Traffic(p, w, m) && SamePending(p, w)
    ensures w.client.epoch + 1 < U32_LIMIT
  {
    hide Upstream, Downstream;
  }

  lemma AckLandsCommitted(p: Primitives, w: World, w1: World, m: Marks)
    requires InvAt(p, w, m) && Acked(p, w, m.stale, m.up, m.down) && m.down == 0
    requires
      var c := w.client;
      var next := DeriveNext(p, c, c.pending.value);
      var pending := c.pending.value.(next := Some(next));
      var commit := PendingCommit(p, c.(pending := Some(pending)));
      w1 == w.(s2c := w.s2c[1..], c2s := w.c2s + [commit], late := 0,
               client := c.(controlWindow := c.controlWindow.Add(c.controlWindow.Next()),
                            transcript := TranscriptNext(p, TranscriptNext(p, c.transcript, w.s2c[0]), commit),
                            pending := Some(pending)))
    ensures Inv(p, w1) && Advances(w, w1)
  {
    hide TranscriptNext, LabelledTag, UpdateInput, ConfirmationKey, FrameBytes, IsData, TrafficKey, Safety.Shape;
    var s, c := w.server, w.client;
    NextIsTaken(c.controlWindow, c.controlWindow.Next());
    var m1 := m.(up := |w.c2s|, down := |w1.s2c|);
    AppendUpControl(w, w1, m.stale, w1.c2s[|w.c2s|]);
    PopRun(w.s2c, 1, |w.s2c|, s.id, s.current.epoch, s.current.s2cData.key, c.dataWindow.Next());
    assert Committed(p, w1, m1.stale, m1.up, m1.down);
    assert Traffic(p, w1, m1);
    assert InvAt(p, w1, m1);
  }

  lemma DoneKeepsInv(p: Primitives, env: Env, w: World, m: Marks, nonce: Digest)
    requires InvAt(p, w, m) && Rotated(p, w, m.turn, m.down) && m.turn == 0
    ensures Take(p, env, w, ClientReceives(nonce)).Happens? && Inv(p, Take(p, env, w, ClientReceives(nonce)).world)
    ensures Advances(w, Take(p, env, w, ClientReceives(nonce)).world)
  {
    hide TranscriptNext, LabelledTag, UpdateInput, ConfirmationKey, FrameBytes, IsData, Receive;
    var s, c := w.server, w.client;
    var r := w.s2c[0];
    EpochsFit(p, w, m);
    DoneIsForClient(p, w, m);
    ClientTakesDone(p, c, r, nonce, w.now);
    var w1 := Take(p, env, w, ClientReceives(nonce)).world;
    assert w.c2s + [] == w.c2s;
    DoneLands(p, w, w1, m);
  }

  lemma DoneIsForClient(p: Primitives, w: World, m: Marks)
    requires Traffic(p, w, m) && Rotated(p, w, m.turn, m.down)
    ensures var c := w.client;
            var next := c.pending.value.next.value;
            w.s2c[m.turn] == SealAs(c.id, Control, c.pending.value.epoch, next.keys.s2cControl, 0,
                         FrameBytes(Frame(0x08, 0, BigEndian(c.pending.value.epoch, 4)
                                                   + LabelledTag(p, next.confirmKey, ServerDone,
                                                     c.pending.value.context))))
  {
    hide TranscriptNext, LabelledTag, FrameBytes, Upstream, Downstream, TrafficKey;
  }

  lemma DoneLands(p: Primitives, w: World, w1: World, m: Marks)
    requires InvAt(p, w, m) && Rotated(p, w, m.turn, m.down) && m.turn == 0
    requires
      var c := w.client;
      var next := c.pending.value.next.value;
      w1 == w.(s2c := w.s2c[1..],
               client := c.(transcript := TranscriptNext(p, c.transcript, w.s2c[0]),
                            keys := next.keys, secret := next.secret, epoch := c.pending.value.epoch,
                            dataNumber := 0, controlNumber := 1,
                            dataWindow := next.dataWindow, controlWindow := next.controlWindow.Add(0), pending := None))
    ensures Inv(p, w1) && Advances(w, w1)
  {
    hide TranscriptNext, LabelledTag, UpdateInput, ConfirmationKey, FrameBytes, IsData, TrafficKey, Safety.Shape;
    var s := w.server;
    var next := w.client.pending.value.next.value;
    assert next.controlWindow.Valid();
    NextIsTaken(next.controlWindow, 0);
    var m1 := m.(turn := 0, down := m.down - 1);
    PopRun(w.s2c, 1, m.down, s.id, s.current.epoch, s.current.s2cData.key, 0);
    PopRun(w.s2c, Min(m.down + 1, |w.s2c|), |w.s2c|, s.id, s.current.epoch, s.current.s2cData.key, m.down - 1);
    assert Upstream(w1, m1.stale, m1.up);
    assert Downstream(w1, m1.turn, m1.down);
    assert Traffic(p, w1, m1);
    if s.updateRequested {
      assert Requested(p, w1, m1.up, m1.down);
    } else {
      assert Idle(w1, m1.up, m1.down);
    }
    assert InvAt(p, w1, m1);
  }

  lemma ClientReceivesKeepsInv(p: Primitives, env: Env, w: World, m: Marks, nonce: Digest)
    requires InvAt(p, w, m)
    ensures !Take(p, env, w, ClientReceives(nonce)).Rejects?
    ensures Take(p, env, w, ClientReceives(nonce)).Happens? ==>
              Inv(p, Take(p, env, w, ClientReceives(nonce)).world)
                && Advances(w, Take(p, env, w, ClientReceives(nonce)).world)
  {
    hide Take, Safety.Shape, TranscriptNext, LabelledTag, UpdateInput, ConfirmationKey, FrameBytes, DataRun, DeriveKeys,
         BigEndian, InitPlaintext;
    if w.s2c == [] {
      NothingToTake(p, env, w);
    } else if if w.client.epoch == w.server.current.epoch then m.down > 0 else m.turn > 0 {
      ClientTakesQueuedData(p, env, w, m, nonce);
    } else if Requested(p, w, m.up, m.down) {
      RequestKeepsInv(p, env, w, m, nonce);
    } else if Acked(p, w, m.stale, m.up, m.down) {
      AckKeepsInv(p, env, w, m, nonce);
    } else {
      DoneKeepsInv(p, env, w, m, nonce);
    }
  }

  // ---- Whole runs ----

  lemma TakeKeepsInv(p: Primitives, env: Env, w: World, e: Event)
    requires Inv(p, w)
    ensures !Take(p, env, w, e).Rejects?
    ensures Take(p, env, w, e).Happens? ==> Inv(p, Take(p, env, w, e).world)
  {
    hide Take, InvAt;
    var m :| InvAt(p, w, m);
    match e
    case Tick(elapsed) => TickNeverRejects(p, env, w, elapsed);
      if Take(p, env, w, e).Happens? { TickKeepsInv(p, env, w, m, elapsed); }
    case Poll => PollKeepsInv(p, env, w, m);
    case ServerSends(frames) => ServerSendsKeepsInv(p, env, w, m, frames);
    case ClientSends(frames) => ClientSendsKeepsInv(p, env, w, m, frames);
    case ServerReceives => ServerReceivesKeepsInv(p, env, w, m);
    case ClientReceives(nonce) => ClientReceivesKeepsInv(p, env, w, m, nonce);
  }

  lemma TickNeverRejects(p: Primitives, env: Env, w: World, elapsed: nat)
    ensures !Take(p, env, w, Tick(elapsed)).Rejects?
  {
  }

  lemma StartIsIdle(p: Primitives, id: Bytes, secret: Digest, handshakeTranscript: Digest, now: nat)
    requires |id| == 16
    ensures Inv(p, Start(p, id, secret, handshakeTranscript, now))
  {
    var w := Start(p, id, secret, handshakeTranscript, now);
    Safety.NewSessionStartsWell(p, id, secret, handshakeTranscript, now);
    assert InvAt(p, w, Marks(0, 0, 0, 0, secret));
  }

  lemma {:induction false} RunKeepsInv(p: Primitives, env: Env, start: World, events: seq<Event>)
    requires Inv(p, start)
    ensures !Run(p, env, start, events).Rejects?
    ensures Run(p, env, start, events).Happens? ==> Inv(p, Run(p, env, start, events).world)
    decreases |events|
  {
    hide Inv, Take;
    if events != [] {
      RunKeepsInv(p, env, start, events[..|events| - 1]);
      var before := Run(p, env, start, events[..|events| - 1]);
      if before.Happens? {
        TakeKeepsInv(p, env, before.world, events[|events| - 1]);
      }
    }
  }

  /** In every run of client and server over two first-in first-out queues -- data both ways, any number
      of updates, any interleaving, any clock that leaves old traffic its 3 s -- nothing is ever rejected. */
  lemma NothingIsRejected(p: Primitives, env: Env, id: Bytes, secret: Digest, handshakeTranscript: Digest, now: nat,
                          events: seq<Event>)
    requires |id| == 16
    ensures !Run(p, env, Start(p, id, secret, handshakeTranscript, now), events).Rejects?
  {
    StartIsIdle(p, id, secret, handshakeTranscript, now);
    RunKeepsInv(p, env, Start(p, id, secret, handshakeTranscript, now), events);
  }

  /** The server is at the client's epoch or one ahead, and whenever the system is quiescent both ends
      hold the same epoch, the same secret, the same traffic keys and the same control transcript. */
  lemma EndsAgree(p: Primitives, env: Env, id: Bytes, secret: Digest, handshakeTranscript: Digest, now: nat,
                  events: seq<Event>)
    requires |id| == 16
    requires Run(p, env, Start(p, id, secret, handshakeTranscript, now), events).Happens?
    ensures var w := Run(p, env, Start(p, id, secret, handshakeTranscript, now), events).world;
            && w.client.epoch <= w.server.current.epoch <= w.client.epoch + 1
            && (Quiescent(w) ==>
                  && w.client.epoch == w.server.current.epoch
                  && w.client.secret == w.server.current.secret
                  && w.client.transcript == w.server.transcript
                  && w.client.keys.c2sData == w.server.current.c2sData.key
                  && w.client.keys.s2cData == w.server.current.s2cData.key
                  && w.client.keys.c2sControl == w.server.current.c2sControl.key
                  && w.client.keys.s2cControl == w.server.current.s2cControl.key)
  {
    hide TranscriptNext, LabelledTag, UpdateInput, ConfirmationKey, FrameBytes, TrafficKey, RequestRecord, Take,
         BigEndian, InitPlaintext;
    var start := Start(p, id, secret, handshakeTranscript, now);
    StartIsIdle(p, id, secret, handshakeTranscript, now);
    RunKeepsInv(p, env, start, events);
    var w := Run(p, env, start, events).world;
    var m :| InvAt(p, w, m);
    if w.client.epoch == w.server.current.epoch { KeysAgree(p, w, m); }
  }

  // ---- Updates complete ----

  lemma EmptyQueuesAreQuiescent(p: Primitives, w: World, m: Marks)
    requires InvAt(p, w, m) && w.c2s == [] && w.s2c == []
    ensures Quiescent(w) && w.server.current.epoch == Target(w)
  {
    hide TranscriptNext, LabelledTag, UpdateInput, ConfirmationKey, FrameBytes, DataRun, DeriveKeys, BigEndian,
         InitPlaintext, Safety.Shape;
  }

  lemma DeliveryHappens(p: Primitives, env: Env, w: World, e: Event)
    requires (e.ServerReceives? && w.c2s != []) || (e.ClientReceives? && w.s2c != [])
    ensures Take(p, env, w, e) != Excluded
  {
    hide ProcessRecord, Receive;
  }

  lemma RunPrepends(p: Primitives, env: Env, w: World, e: Event, events: seq<Event>)
    requires Take(p, env, w, e).Happens?
    ensures Run(p, env, w, [e] + events) == Run(p, env, Take(p, env, w, e).world, events)
    decreases |events|
  {
    hide Take;
    if events == [] {
      assert [e] + events == [e] && [e][..0] == [];
    } else {
      RunPrepends(p, env, w, e, events[..|events| - 1]);
      assert ([e] + events)[..|[e] + events| - 1] == [e] + events[..|events| - 1];
    }
  }

  /** Delivering what is in the queues, and the answers, completes whatever update is under way: the run
      ends quiescent, at the epoch it was heading for. */
  lemma {:induction false} Deliver(p: Primitives, env: Env, w: World, nonce: Digest) returns (events: seq<Event>)
    requires Inv(p, w)
    ensures forall e | e in events :: e == ServerReceives || e == ClientReceives(nonce)
    ensures Run(p, env, w, events).Happens? && Quiescent(Run(p, env, w, events).world)
    ensures Run(p, env, w, events).world.server.current.epoch == Target(w)
    decreases Outstanding(w)
  {
    hide Take, InvAt, Outstanding, Target;
    var m :| InvAt(p, w, m);
    if w.c2s == [] && w.s2c == [] {
      EmptyQueuesAreQuiescent(p, w, m);
      events := [];
    } else {
      var e := if w.c2s != [] then ServerReceives else ClientReceives(nonce);
      DeliveryHappens(p, env, w, e);
      if w.c2s != [] {
        ServerReceivesKeepsInv(p, env, w, m);
      } else {
        ClientReceivesKeepsInv(p, env, w, m, nonce);
      }
      var rest := Deliver(p, env, Take(p, env, w, e).world, nonce);
      RunPrepends(p, env, w, e, rest);
      events := [e] + rest;
    }
  }

  /** From every state of every run, delivering the records on their way brings both ends to the same
      next epoch: an update once requested completes, and one not requested is not invented. */
  lemma UpdatesComplete(p: Primitives, env: Env, id: Bytes, secret: Digest, handshakeTranscript: Digest, now: nat,
                        events: seq<Event>, nonce: Digest) returns (more: seq<Event>)
    requires |id| == 16
    requires Run(p, env, Start(p, id, secret, handshakeTranscript, now), events).Happens?
    ensures forall e | e in more :: e == ServerReceives || e == ClientReceives(nonce)
    ensures var w := Run(p, env, Start(p, id, secret, handshakeTranscript, now), events).world;
            var last := Run(p, env, w, more);
            && last.Happens? && Quiescent(last.world)
            && last.world.server.current.epoch == w.server.current.epoch + (if w.server.updateRequested then 1 else 0)
  {
    hide Take, Inv;
    var start := Start(p, id, secret, handshakeTranscript, now);
    StartIsIdle(p, id, secret, handshakeTranscript, now);
    RunKeepsInv(p, env, start, events);
    more := Deliver(p, env, Run(p, env, start, events).world, nonce);
  }

  // ---- Every epoch is reached ----

  /** At rest, once the epoch is old enough, a poll always happens and asks for an update. */
  lemma PollAsks(p: Primitives, env: Env, w: World, m: Marks, elapsed: nat)
    requires InvAt(p, w, m) && Quiescent(w) && w.server.current.epoch + 1 < U32_LIMIT
    requires w.now + elapsed >= w.server.epochStarted + UPDATE_INTERVAL
    ensures var ticked := w.(now := w.now + elapsed);
            && Take(p, env, w, Tick(elapsed)) == Happens(ticked)
            && Take(p, env, ticked, Poll).Happens?
            && var asked := Take(p, env, ticked, Poll).world;
               asked.server.updateRequested && asked.server.current.epoch == w.server.current.epoch
  {
    hide Upstream, Downstream, Phase, TranscriptNext, RequestRecord, FrameBytes, BigEndian;
    ControlNumbersFit(p, w, m);
    AtRestEpochsAgree(p, w, m);
    PollOutcome(p, w.server, w.now + elapsed);
  }

  lemma AtRestEpochsAgree(p: Primitives, w: World, m: Marks)
    requires InvAt(p, w, m) && Quiescent(w)
    ensures w.client.epoch == w.server.current.epoch
  {
    hide TranscriptNext, LabelledTag, UpdateInput, ConfirmationKey, FrameBytes, DataRun, DeriveKeys, BigEndian,
         InitPlaintext, Safety.Shape;
  }

  lemma RunThen(p: Primitives, env: Env, w: World, events: seq<Event>, more: seq<Event>)
    requires Run(p, env, w, events).Happens?
    ensures Run(p, env, w, events + more) == Run(p, env, Run(p, env, w, events).world, more)
    decreases |more|
  {
    hide Take;
    if more == [] {
      assert events + more == events;
    } else {
      var last := |more| - 1;
      RunThen(p, env, w, events, more[..last]);
      assert (events + more)[..|events + more| - 1] == events + more[..last];
    }
  }

  /** From rest: time passes, the server asks, the records are delivered, and both ends rest again one epoch on. */
  lemma OneMoreEpoch(p: Primitives, env: Env, w: World, nonce: Digest) returns (events: seq<Event>)
    requires Inv(p, w) && Quiescent(w) && w.server.current.epoch + 1 < U32_LIMIT
    ensures Run(p, env, w, events).Happens?
    ensures var w1 := Run(p, env, w, events).world;
            Inv(p, w1) && Quiescent(w1) && w1.server.current.epoch == w.server.current.epoch + 1
  {
    hide Take, InvAt, Quiescent;
    var m :| InvAt(p, w, m);
    var elapsed := w.server.epochStarted + UPDATE_INTERVAL;
    PollAsks(p, env, w, m, elapsed);
    var ticked := w.(now := w.now + elapsed);
    TakeKeepsInv(p, env, w, Tick(elapsed));
    TakeKeepsInv(p, env, ticked, Poll);
    var asked := Take(p, env, ticked, Poll).world;
    var more := Deliver(p, env, asked, nonce);
    RunPrepends(p, env, ticked, Poll, more);
    RunPrepends(p, env, w, Tick(elapsed), [Poll] + more);
    events := [Tick(elapsed)] + ([Poll] + more);
    RunKeepsInv(p, env, w, events);
  }

  /** No epoch is out of reach: for every 32-bit epoch some run from the start completes every update up to
      it and leaves both ends there, at rest. So the exclusions of `Take` empty none of the theorems. */
  lemma {:induction false} EveryEpochIsReached(p: Primitives, env: Env, id: Bytes, secret: Digest,
                                               handshakeTranscript: Digest,
                                               now: nat, epoch: nat, nonce: Digest) returns (events: seq<Event>)
    requires |id| == 16 && epoch < U32_LIMIT
    ensures Run(p, env, Start(p, id, secret, handshakeTranscript, now), events).Happens?
    ensures var w := Run(p, env, Start(p, id, secret, handshakeTranscript, now), events).world;
            Quiescent(w) && w.client.epoch == w.server.current.epoch == epoch
    decreases epoch
  {
    hide Take, Inv;
    var start := Start(p, id, secret, handshakeTranscript, now);
    if epoch == 0 {
      events := [];
    } else {
      var before := EveryEpochIsReached(p, env, id, secret, handshakeTranscript, now, epoch - 1, nonce);
      StartIsIdle(p, id, secret, handshakeTranscript, now);
      RunKeepsInv(p, env, start, before);
      var more := OneMoreEpoch(p, env, Run(p, env, start, before).world, nonce);
      events := before + more;
      RunThen(p, env, start, before, more);
      EndsAgree(p, env, id, secret, handshakeTranscript, now, events);
    }
  }
}
