/** The tunnel from end to end: packets into one end, records between, packets out of the other. */
module Tunnel {
  import opened Prelude
  import opened Record
  import opened ReplayWindow
  import opened Rekey
  import opened ClientCore
  import opened Reassembly
  import opened ClientReassembly
  import opened PacketBatch
  import opened RekeyExchange
  import opened RekeyJoint
  import Server = ServerSession
  import Client_ = ClientTunnel
  import Limits = Shaping
  import Order = ReassemblyOrder
  import Agreement = RekeyAgreement
  import ServerRecords
  import Safety = RekeySafety

  // ---- What both ends need to agree on ----

  /** The client is in the server's epoch and expects the server's next data record. */
  ghost predicate InStepDown(s: Session, c: Client) {
    && s.id == c.id && |s.id| == 16
    && s.current.epoch == c.epoch < U32_LIMIT
    && s.current.s2cData == Sender(Data, c.id, c.epoch, c.keys.s2cData, c.dataWindow.Next())
    && c.dataWindow.Valid() && c.dataWindow.Next() <= MAX_RECORDS_PER_EPOCH
  }

  // ---- The server seals ----

  function DataRecord(s: Sender, number: nat, plaintext: Bytes): Sealed {
    Sealed(HeaderFor(s, number, plaintext, false), s.key, plaintext)
  }

  /** The server's session after it sealed `count` data records in a row. */
  function SealedMore(s: Session, after: Session, count: nat): bool {
    after == s.(current := s.current.(s2cData := s.current.s2cData.(next := s.current.s2cData.next + count)),
                dataRecords := after.dataRecords, plaintextBytes := after.plaintextBytes)
  }

  lemma SealOneSends(s: Server.State, plaintext: Bytes)
    requires Server.SealOne(s, plaintext).error.None?
    ensures var r := Server.SealOne(s, plaintext);
            && r.effects == [Server.Send(DataRecord(s.crypto.current.s2cData, s.crypto.current.s2cData.next,
                                                    plaintext))]
            && s.crypto.current.s2cData.next < MAX_RECORDS_PER_EPOCH && |plaintext| + TAG_LEN <= MAX_CIPHERTEXT_LEN
            && r.state == s.(crypto := r.state.crypto) && SealedMore(s.crypto, r.state.crypto, 1)
  {
  }

  lemma {:induction false} SealAllSends(s: Server.State, plaintexts: seq<Bytes>)
    requires Server.SealAll(s, plaintexts).error.None?
    ensures var r := Server.SealAll(s, plaintexts);
            && |r.effects| == |plaintexts|
            && r.state == s.(crypto := r.state.crypto) && SealedMore(s.crypto, r.state.crypto, |plaintexts|)
            && forall i | 0 <= i < |plaintexts| ::
                 && r.effects[i] == Server.Send(DataRecord(s.crypto.current.s2cData, s.crypto.current.s2cData.next + i,
                                                           plaintexts[i]))
                 && |plaintexts[i]| + TAG_LEN <= MAX_CIPHERTEXT_LEN
    ensures s.crypto.current.s2cData.next + |plaintexts| <= MAX_RECORDS_PER_EPOCH || plaintexts == []
    decreases |plaintexts|
  {
    hide Server.SealOne;
    if plaintexts != [] {
      var n := |plaintexts| - 1;
      SealAllSends(s, plaintexts[..n]);
      var before := Server.SealAll(s, plaintexts[..n]);
      SealOneSends(before.state, plaintexts[n]);
    }
  }

  // ---- The client receives ----

  /** The randomness and the time a record of the server would be handled with. */
  datatype Moment = Moment(nonce: Digest, now: nat)

  /** The client after some records: how many data frames it has looked at, and the packets it has returned. */
  datatype Progress = Progress(endpoint: Client_.Endpoint, frames: nat, packets: seq<Bytes>,
                               error: Option<Client_.TunnelError>)

  function Later(clock: nat -> nat, from: nat): nat -> nat {
    i => clock(from + i)
  }

  /** Receives the records in order; `clock(i)` is what the clock shows at the i-th data frame of them all. */
  ghost function ReceiveAll(p: Primitives, e: Client_.Endpoint, records: seq<Sealed>, moments: nat -> Moment,
                            clock: nat -> nat, maximum: nat): Progress
    decreases |records|
  {
    if records == [] then Progress(e, 0, [], None)
    else
      var n := |records| - 1;
      var before := ReceiveAll(p, e, records[..n], moments, clock, maximum);
      if before.error.Some? then before
      else
        var frames := Receive(p, before.endpoint.client, records[n], moments(n).nonce, moments(n).now).1;
        var (after, r) := Client_.ReceivePackets(p, before.endpoint, records[n], moments(n).nonce, moments(n).now,
                                                 Later(clock, before.frames), maximum);
        match r
        case Err(error) => Progress(after, before.frames, before.packets, Some(error))
        case Ok(delivery) =>
          Progress(after, before.frames + (if frames.Ok? then |frames.value.data| else 0),
                   before.packets + delivery.packets, None)
  }

  lemma ReceivesData(p: Primitives, c: Client, r: Sealed, frames: seq<Frame>, nonce: Digest, now: nat)
    requires c.dataWindow.Valid() && c.dataWindow.Next() < U32_LIMIT
    requires r == SealAs(c.id, Data, c.epoch, c.keys.s2cData, c.dataWindow.Next(), r.plaintext)
    requires ClientFrames(r.plaintext) == Ok(frames)
    ensures Receive(p, c, r, nonce, now) == (c.(dataWindow := c.dataWindow.Add(c.dataWindow.Next())),
                                             Ok(Received(frames, None)))
  {
    hide ClientFrames;
    NextIsTaken(c.dataWindow, c.dataWindow.Next());
  }

  /** The client's window after the next `count` numbers. */
  function Advanced(w: Window, count: nat): Window
    decreases count
  {
    if count == 0 then w else var before := Advanced(w, count - 1); before.Add(before.Next())
  }

  lemma {:induction false} AdvancedNext(w: Window, count: nat)
    requires w.Valid() && w.Next() + count <= U32_LIMIT
    ensures Advanced(w, count).Valid() && Advanced(w, count).Next() == w.Next() + count
  {
    if count > 0 {
      AdvancedNext(w, count - 1);
      NextIsTaken(Advanced(w, count - 1), w.Next() + count - 1);
    }
  }

  lemma {:induction false} TakeFramesSplit(o: Ordered, a: seq<Frame>, b: seq<Frame>, clock: nat -> nat, maximum: nat)
    ensures var first := Client_.TakeFrames(o, a, clock, maximum);
            Client_.TakeFrames(o, a + b, clock, maximum) ==
              if first.error.Some? then first
              else
                var second := Client_.TakeFrames(first.reassembly, b, Later(clock, |a|), maximum);
                Client_.Taken(second.reassembly, first.packets + second.packets, second.error)
    decreases |b|
  {
    hide Client_.TakeFrame;
    var first := Client_.TakeFrames(o, a, clock, maximum);
    if b == [] {
      assert a + b == a && first.packets + [] == first.packets;
    } else {
      var n := |b| - 1;
      assert (a + b)[..|a + b| - 1] == a + b[..n];
      TakeFramesSplit(o, a, b[..n], clock, maximum);
      if first.error.None? {
        var second := Client_.TakeFrames(first.reassembly, b[..n], Later(clock, |a|), maximum);
        if second.error.None? {
          var last := Client_.TakeFrame(second.reassembly, b[n], clock(|a| + n), maximum);
          assert first.packets + (second.packets + last.packets) == first.packets + second.packets + last.packets;
        }
      }
    }
  }

  lemma {:induction false} FlatSplits<T>(lists: seq<seq<T>>, list: seq<T>)
    ensures Flat(lists + [list]) == Flat(lists) + list
    decreases |lists|
  {
    if lists == [] {
      assert lists + [list] == [list] && [list][1..] == [];
      assert Flat([list]) == list + Flat([list][1..]) == list + [];
    } else {
      assert (lists + [list])[1..] == lists[1..] + [list];
      FlatSplits(lists[1..], list);
    }
  }

  /** Records of groups of frames, one after the other from the next number on. */
  ghost predicate Carry(records: seq<Sealed>, groups: seq<seq<Frame>>, c: Client) {
    && |records| == |groups| && c.dataWindow.Next() + |records| <= U32_LIMIT
    && forall i | 0 <= i < |records| ::
         && records[i] == SealAs(c.id, Data, c.epoch, c.keys.s2cData, c.dataWindow.Next() + i, records[i].plaintext)
         && ClientFrames(records[i].plaintext) == Ok(groups[i])
  }

  /** Receiving the records is taking their frames, all together. */
  lemma {:induction false} ReceiveAllTakes(p: Primitives, e: Client_.Endpoint, records: seq<Sealed>,
                                           groups: seq<seq<Frame>>,
                                           moments: nat -> Moment, clock: nat -> nat, maximum: nat)
    requires e.client.dataWindow.Valid() && Carry(records, groups, e.client)
    ensures var got := ReceiveAll(p, e, records, moments, clock, maximum);
            var taken := Client_.TakeFrames(e.reassembly, Flat(groups), clock, maximum);
            && (got.error.None? <==> taken.error.None?)
            && (got.error.None? ==>
                  && got.packets == taken.packets && got.frames == |Flat(groups)|
                  && got.endpoint == Client_.Endpoint(
                       e.client.(dataWindow := Advanced(e.client.dataWindow, |records|)), taken.reassembly))
    decreases |records|
  {
    hide Receive, Client_.TakeFrames, ClientFrames;
    if records == [] {
      assert Flat(groups) == [];
      NothingTaken(e.reassembly, clock, maximum);
    } else {
      var n := |records| - 1;
      var c := e.client;
      ReceiveAllTakes(p, e, records[..n], groups[..n], moments, clock, maximum);
      FlatSplits(groups[..n], groups[n]);
      assert groups[..n] + [groups[n]] == groups;
      TakeFramesSplit(e.reassembly, Flat(groups[..n]), groups[n], clock, maximum);
      var before := ReceiveAll(p, e, records[..n], moments, clock, maximum);
      if before.error.None? {
        AdvancedNext(c.dataWindow, n);
        ReceivesData(p, before.endpoint.client, records[n], groups[n], moments(n).nonce, moments(n).now);
      }
    }
  }

  lemma NothingTaken(o: Ordered, clock: nat -> nat, maximum: nat)
    ensures Client_.TakeFrames(o, [], clock, maximum) == Client_.Taken(o, [], None)
  {
  }

  // ---- Reassembly at the client ----

  /** A fragment within the client's limit. */
  predicate Acceptable(f: Frame, maximum: nat) {
    f.frameType == FRAGMENT_FRAME ==> ParseFor(f.body, maximum).Ok?
  }

  function Times(clock: nat -> nat, n: nat): seq<nat> {
    seq<nat>(n, i requires 0 <= i < n => clock(i))
  }

  lemma {:induction false} DeliverPrefix(a: Assemblies, f: seq<Frame>, t: seq<nat>, g: seq<Frame>, u: seq<nat>)
    requires |f| == |t| && |g| == |u| && Deliver(a, f + g, t + u).Ok?
    ensures Deliver(a, f, t).Ok?
    decreases |f|
  {
    hide DeliverOne;
    if f != [] {
      assert (f + g)[1..] == f[1..] + g && (t + u)[1..] == t[1..] + u;
      DeliverPrefix(DeliverOne(a, f[0], t[0]).0, f[1..], t[1..], g, u);
    }
  }

  lemma OneIsDelivered(o: Ordered, f: Frame, now: nat, maximum: nat)
    requires Deliver(o.assemblies, [f], [now]).Ok? && Acceptable(f, maximum)
    ensures var taken := Client_.TakeFrame(o, f, now, maximum);
            taken.error.None? && Deliver(o.assemblies, [f], [now]) == Ok((taken.reassembly.assemblies, taken.packets))
  {
    hide StoreOne, Parse, Still, Expire;
    var (a1, r) := DeliverOne(o.assemblies, f, now);
    assert Deliver(a1, [f][1..], [now][1..]) == Ok((a1, []));
    var packets := if r.value.Some? then [r.value.value] else [];
    assert packets + [] == packets;
  }

  /** Where the server's reassembler would deliver, so does the client's, if every fragment is within its limit. */
  lemma {:induction false} TakesAsDelivered(o: Ordered, frames: seq<Frame>, clock: nat -> nat, maximum: nat)
    requires Deliver(o.assemblies, frames, Times(clock, |frames|)).Ok?
    requires forall i | 0 <= i < |frames| :: Acceptable(frames[i], maximum)
    ensures var taken := Client_.TakeFrames(o, frames, clock, maximum);
            taken.error.None?
            && Deliver(o.assemblies, frames, Times(clock, |frames|)) == Ok((taken.reassembly.assemblies, taken.packets))
    decreases |frames|
  {
    hide DeliverOne, Client_.TakeFrame, Acceptable;
    if frames != [] {
      var n := |frames| - 1;
      var times, last := Times(clock, n), [clock(n)];
      assert frames == frames[..n] + [frames[n]] && Times(clock, |frames|) == times + last;
      DeliverPrefix(o.assemblies, frames[..n], times, [frames[n]], last);
      TakesAsDelivered(o, frames[..n], clock, maximum);
      DeliverSplits(o.assemblies, frames[..n], times, [frames[n]], last);
      OneIsDelivered(Client_.TakeFrames(o, frames[..n], clock, maximum).reassembly, frames[n], clock(n), maximum);
    }
  }

  /** A fragment over the limit ends the session. */
  lemma {:induction false} TakenIsAcceptable(o: Ordered, frames: seq<Frame>, clock: nat -> nat, maximum: nat)
    requires Client_.TakeFrames(o, frames, clock, maximum).error.None?
    ensures forall i | 0 <= i < |frames| :: Acceptable(frames[i], maximum)
    decreases |frames|
  {
    hide StoreOne, Parse, Still, Expire;
    if frames != [] {
      var n := |frames| - 1;
      TakenIsAcceptable(o, frames[..n], clock, maximum);
      forall i | 0 <= i < |frames| ensures Acceptable(frames[i], maximum) {
        if i < n { assert frames[..n][i] == frames[i]; }
      }
    }
  }

  // ---- From the network to the client ----

  /** Packing frames that fit and printing the groups gives records either parser reads as the groups. */
  lemma GroupsParse(frames: seq<Frame>, capacity: nat)
    requires AllSendable(frames, capacity)
    ensures var groups := Pack([], frames, capacity);
            && Flat(groups) == frames && |Printed(groups)| == |groups|
            && (forall g | g in groups :: AllSendable(g, capacity))
            && forall i | 0 <= i < |groups| ::
                 && Printed(groups)[i] == FramesBytes(groups[i])
                 && Frames(FramesBytes(groups[i]), Data) == Ok(groups[i])
                 && ClientFrames(FramesBytes(groups[i])) == Ok(groups[i])
  {
    hide Frames, FramesBytes, ClientFrames, Pack, Printed;
    var groups := Pack([], frames, capacity);
    PackSplits([], frames, capacity);
    assert [] + frames == frames;
    PrintedAt(groups);
    forall g | g in groups ensures AllSendable(g, capacity) {
      forall f | f in g ensures Sendable(f, capacity) { FlatHolds(groups, g, f); }
    }
    forall i | 0 <= i < |groups|
      ensures Frames(FramesBytes(groups[i]), Data) == Ok(groups[i])
              && ClientFrames(FramesBytes(groups[i])) == Ok(groups[i])
    {
      assert groups[i] in groups && AllSendable(groups[i], capacity);
      ParsersAgree(groups[i], Data);
    }
  }

  /** The client takes a packet whole, or in fragments if it is within its limit. */
  predicate Receivable(packet: Bytes, maximum: nat) {
    |packet| + 4 <= Server.RECORD_CAPACITY || |packet| <= maximum
  }

  ghost predicate AllAcceptable(frames: seq<Frame>, maximum: nat) {
    forall i | 0 <= i < |frames| :: Acceptable(frames[i], maximum)
  }

  lemma PacketAcceptable(packet: Bytes, id: nat, maximum: nat)
    requires id < U32_LIMIT && PacketFrames(packet, Server.RECORD_CAPACITY, id).Ok?
    ensures AllAcceptable(PacketFrames(packet, Server.RECORD_CAPACITY, id).value, maximum)
            <==> Receivable(packet, maximum)
  {
    hide FragmentFrames;
    var frames := PacketFrames(packet, Server.RECORD_CAPACITY, id).value;
    if |packet| + 4 > Server.RECORD_CAPACITY {
      FragmentsAcceptable(packet, Server.RECORD_CAPACITY - FRAGMENT_OVERHEAD, id, maximum);
      assert frames == FragmentFrames(packet, Server.RECORD_CAPACITY - FRAGMENT_OVERHEAD, id);
      assert Acceptable(frames[0], maximum) <==> |packet| <= maximum;
    }
  }

  lemma FragmentsAcceptable(packet: Bytes, chunk: nat, id: nat, maximum: nat)
    requires id < U32_LIMIT && chunk > 0 && 0 < |packet| < U16_LIMIT
    ensures |FragmentFrames(packet, chunk, id)| > 0
    ensures forall i | 0 <= i < |FragmentFrames(packet, chunk, id)| ::
              FragmentFrames(packet, chunk, id)[i].frameType == FRAGMENT_FRAME
              && (Acceptable(FragmentFrames(packet, chunk, id)[i], maximum) <==> |packet| <= maximum)
  {
    hide Parse, Encode;
    ChunksCut(|packet|, chunk);
    ChunkCountBounds(|packet|, chunk);
    var cuts := ChunkCuts(|packet|, chunk);
    forall i: nat | i < |FragmentFrames(packet, chunk, id)|
      ensures FragmentFrames(packet, chunk, id)[i].frameType == FRAGMENT_FRAME
      ensures Acceptable(FragmentFrames(packet, chunk, id)[i], maximum) <==> |packet| <= maximum
    {
      FragmentRoundTrip(Order.FragmentOf(packet, cuts, id, i));
    }
  }

  lemma {:induction false} AllFramesAcceptable(packets: seq<Bytes>, ids: seq<nat>, maximum: nat)
    requires |ids| == |packets| && AllFrames(packets, ids, Server.RECORD_CAPACITY).Ok?
    requires forall k | 0 <= k < |packets| :: ids[k] < U32_LIMIT
    ensures AllAcceptable(AllFrames(packets, ids, Server.RECORD_CAPACITY).value, maximum)
            <==> forall k | 0 <= k < |packets| :: Receivable(packets[k], maximum)
    decreases |packets|
  {
    hide PacketFrames, Acceptable, Receivable;
    if packets != [] {
      PacketAcceptable(packets[0], ids[0], maximum);
      AllFramesAcceptable(packets[1..], ids[1..], maximum);
      var first := PacketFrames(packets[0], Server.RECORD_CAPACITY, ids[0]).value;
      var rest := AllFrames(packets[1..], ids[1..], Server.RECORD_CAPACITY).value;
      AcceptableTogether(first, rest, maximum);
      assert forall k | 0 < k < |packets| :: packets[k] == packets[1..][k - 1];
      assert forall k | 0 <= k < |packets| - 1 :: packets[1..][k] == packets[k + 1];
    }
  }

  lemma AcceptableTogether(a: seq<Frame>, b: seq<Frame>, maximum: nat)
    ensures AllAcceptable(a + b, maximum) <==> AllAcceptable(a, maximum) && AllAcceptable(b, maximum)
  {
    hide Acceptable;
    if AllAcceptable(a + b, maximum) {
      forall i | 0 <= i < |a| ensures Acceptable(a[i], maximum) { assert (a + b)[i] == a[i]; }
      forall i | 0 <= i < |b| ensures Acceptable(b[i], maximum) { assert (a + b)[|a| + i] == b[i]; }
    }
  }

  function Records(effects: seq<Server.Effect>): seq<Sealed> {
    if effects == [] then []
    else
      var last := effects[|effects| - 1];
      Records(effects[..|effects| - 1]) + (if last.Send? then [last.record] else [])
  }

  lemma {:induction false} RecordsAt(effects: seq<Server.Effect>)
    requires forall i | 0 <= i < |effects| :: effects[i].Send?
    ensures |Records(effects)| == |effects| && forall i | 0 <= i < |effects| :: Records(effects)[i] == effects[i].record
    decreases |effects|
  {
    if effects != [] { RecordsAt(effects[..|effects| - 1]); }
  }

  /** When the frames of the packets are looked at: each packet's within 3 s of its first. */
  ghost predicate Punctual(packets: seq<Bytes>, ids: seq<nat>, times: seq<seq<nat>>, clock: nat -> nat) {
    && |ids| == |packets| == |times|
    && (forall k | 0 <= k < |packets| ::
          && ids[k] < U32_LIMIT && Prompt(times[k])
          && PacketFrames(packets[k], Server.RECORD_CAPACITY, ids[k]).Ok?
          && |times[k]| == |PacketFrames(packets[k], Server.RECORD_CAPACITY, ids[k]).value|)
    && (forall i | 0 <= i < |Flat(times)| :: clock(i) == Flat(times)[i])
  }

  /** Packets from the network, once the server has let them through: the client takes every record, and gets
      exactly these packets in this order, if and only if each of them fits a frame or the client's limit. Both
      ends stay in step. */
  lemma DownstreamIff(p: Primitives, s: Server.State, e: Client_.Endpoint, packets: seq<Bytes>, ids: seq<nat>, now: nat,
                      moments: nat -> Moment, times: seq<seq<nat>>, clock: nat -> nat, maximum: nat)
    requires InStepDown(s.crypto, e.client) && e.reassembly.assemblies == map[]
    requires Punctual(packets, ids, times, clock) && Server.Outbound(s, packets, ids, now).error.None?
    ensures var sent := Server.Outbound(s, packets, ids, now);
            var got := ReceiveAll(p, e, Records(sent.effects), moments, clock, maximum);
            && (got.error.None? <==> forall k | 0 <= k < |packets| :: Receivable(packets[k], maximum))
            && (got.error.None? ==>
                  && got.packets == packets && got.endpoint.reassembly.assemblies == map[]
                  && InStepDown(sent.state.crypto, got.endpoint.client))
  {
    hide PacketFrames, AllFrames, Pack, Printed, Receivable, Flat, Deliver, Client_.TakeFrames, ReceiveAll,
         ClientFrames, Frames, FramesBytes, Server.SealAll, Prompt, Limits.ReservePolicy, Server.Size;
    var sent := Server.Outbound(s, packets, ids, now);
    var frames := AllFrames(packets, ids, Server.RECORD_CAPACITY).value;
    var groups := Pack([], frames, Server.RECORD_CAPACITY);
    AllFramesSendable(packets, ids, Server.RECORD_CAPACITY);
    GroupsParse(frames, Server.RECORD_CAPACITY);
    FramesDeliver(packets, ids, Server.RECORD_CAPACITY, times);
    assert Flat(times) == Times(clock, |frames|);
    AllFramesAcceptable(packets, ids, maximum);
    SentCarry(s, e.client, packets, ids, now, groups);
    ReceiveAllTakes(p, e, Records(sent.effects), groups, moments, clock, maximum);
    var taken := Client_.TakeFrames(e.reassembly, frames, clock, maximum);
    if taken.error.None? {
      TakenIsAcceptable(e.reassembly, frames, clock, maximum);
    }
    if AllAcceptable(frames, maximum) {
      TakesAsDelivered(e.reassembly, frames, clock, maximum);
      AdvancedNext(e.client.dataWindow, |groups|);
    }
  }

  /** What the server sends for the packets carries the groups of their frames. */
  lemma SentCarry(s: Server.State, c: Client, packets: seq<Bytes>, ids: seq<nat>, now: nat, groups: seq<seq<Frame>>)
    requires InStepDown(s.crypto, c) && |ids| == |packets| && Server.Outbound(s, packets, ids, now).error.None?
    requires Batched(packets, ids, Server.RECORD_CAPACITY) == Ok(Printed(groups)) && |Printed(groups)| == |groups|
    requires forall i | 0 <= i < |groups| ::
               Printed(groups)[i] == FramesBytes(groups[i]) && ClientFrames(FramesBytes(groups[i])) == Ok(groups[i])
    ensures var sent := Server.Outbound(s, packets, ids, now);
            Carry(Records(sent.effects), groups, c) && SealedMore(s.crypto, sent.state.crypto, |groups|)
  {
    hide Batched, Printed, ClientFrames, FramesBytes, Server.SealAll, Server.Outbound, Carry;
    var asked := OutboundSeals(s, packets, ids, now, Printed(groups));
    SealedCarry(asked, c, Printed(groups), groups);
  }

  /** Once the policy has let the packets through, sending them is sealing their batches. */
  lemma OutboundSeals(s: Server.State, packets: seq<Bytes>, ids: seq<nat>, now: nat, plaintexts: seq<Bytes>)
    returns (asked: Server.State)
    requires |ids| == |packets| && Batched(packets, ids, Server.RECORD_CAPACITY) == Ok(plaintexts)
    requires Server.Outbound(s, packets, ids, now).error.None?
    ensures var sent := Server.Outbound(s, packets, ids, now);
            var sealed := Server.SealAll(asked, plaintexts);
            asked.crypto == s.crypto && sealed.error.None? && sent.effects == sealed.effects
              && sent.state == sealed.state
  {
    hide Batched, Server.SealAll, Server.Size, Limits.Filled;
    asked := s.(policy := Limits.ReservePolicy(s.policy, Server.Size(packets), now).0);
  }

  lemma SealedCarry(s: Server.State, c: Client, plaintexts: seq<Bytes>, groups: seq<seq<Frame>>)
    requires InStepDown(s.crypto, c) && Server.SealAll(s, plaintexts).error.None? && |plaintexts| == |groups|
    requires forall i | 0 <= i < |groups| ::
               plaintexts[i] == FramesBytes(groups[i]) && ClientFrames(FramesBytes(groups[i])) == Ok(groups[i])
    ensures var sealed := Server.SealAll(s, plaintexts);
            Carry(Records(sealed.effects), groups, c) && SealedMore(s.crypto, sealed.state.crypto, |groups|)
  {
    hide ClientFrames, FramesBytes, Server.SealAll;
    var sealed := Server.SealAll(s, plaintexts);
    SealAllSends(s, plaintexts);
    RecordsAt(sealed.effects);
  }

  // ---- A packet the client does not take ----

  lemma {:induction false} SealAllSucceeds(s: Server.State, plaintexts: seq<Bytes>)
    requires s.crypto.current.s2cData.next + |plaintexts| <= MAX_RECORDS_PER_EPOCH
    requires s.crypto.dataRecords + |plaintexts| < U64_LIMIT
    requires s.crypto.plaintextBytes + |plaintexts| * MAX_CIPHERTEXT_LEN < U64_LIMIT
    requires forall i | 0 <= i < |plaintexts| :: |plaintexts[i]| + TAG_LEN <= MAX_CIPHERTEXT_LEN
    ensures var r := Server.SealAll(s, plaintexts);
            && r.error.None?
            && r.state.crypto.current.s2cData.next == s.crypto.current.s2cData.next + |plaintexts|
            && r.state.crypto.dataRecords == s.crypto.dataRecords + |plaintexts|
            && r.state.crypto.plaintextBytes <= s.crypto.plaintextBytes + |plaintexts| * MAX_CIPHERTEXT_LEN
    decreases |plaintexts|
  {
    if plaintexts != [] {
      SealAllSucceeds(s, plaintexts[..|plaintexts| - 1]);
    }
  }

  lemma {:induction false} FewGroups(groups: seq<seq<Frame>>)
    requires forall g | g in groups :: g != []
    ensures |groups| <= |Flat(groups)|
  {
    if groups != [] {
      assert groups[0] in groups && forall g | g in groups[1..] :: g in groups;
      FewGroups(groups[1..]);
    }
  }

  /** A session of one hour at 1 MiB a second, without a quota. */
  function Hour(p: Primitives, id: Bytes, secret: Digest, handshakeTranscript: Digest): Server.State {
    Server.State(New(p, id, secret, handshakeTranscript, 0), map[],
                 Limits.Policy(3600 * Limits.NANOS, None, 0, Limits.Bucket(1024 * 1024, 1024 * 1024, 1024 * 1024, 0)))
  }

  lemma HourIsNew(p: Primitives, id: Bytes, secret: Digest, handshakeTranscript: Digest, bytes: nat)
    ensures Limits.NewPolicy(3600, 1024 * 1024, 0, 0) == Ok(Hour(p, id, secret, handshakeTranscript).policy)
    ensures var (policy, r) := Limits.ReservePolicy(Hour(p, id, secret, handshakeTranscript).policy, bytes, 0);
            policy.bucket.rate > 0 && (bytes <= 1024 * 1024 ==> r == Ok(0))
  {
  }

  lemma OnePacketFrames(packet: Bytes, packetId: nat)
    requires |packet| < U16_LIMIT
    ensures PacketFrames(packet, Server.RECORD_CAPACITY, packetId).Ok?
    ensures var frames := PacketFrames(packet, Server.RECORD_CAPACITY, packetId).value;
            && AllFrames([packet], [packetId], Server.RECORD_CAPACITY) == Ok(frames)
            && |frames| <= U16_LIMIT
  {
    hide FragmentFrames;
    var frames := PacketFrames(packet, Server.RECORD_CAPACITY, packetId).value;
    assert [packet][1..] == [] && [packetId][1..] == [] && AllFrames([], [], Server.RECORD_CAPACITY) == Ok([]);
    assert frames + [] == frames;
    if |packet| + 4 > Server.RECORD_CAPACITY {
      var chunk := Server.RECORD_CAPACITY - FRAGMENT_OVERHEAD;
      ChunksCut(|packet|, chunk);
      ChunkCountBounds(|packet|, chunk);
      FewFragments(packet, chunk, packetId);
    }
  }

  lemma FewFragments(packet: Bytes, chunk: nat, packetId: nat)
    requires chunk > 0 && 0 < |packet| < U16_LIMIT
    ensures |FragmentFrames(packet, chunk, packetId)| <= U16_LIMIT
  {
    ChunksCut(|packet|, chunk);
    ChunkCountBounds(|packet|, chunk);
  }

  /** A new session sends one packet of any size. */
  lemma OnePacketLeaves(p: Primitives, id: Bytes, secret: Digest, handshakeTranscript: Digest, packet: Bytes,
                        packetId: nat)
    requires |packet| < U16_LIMIT
    ensures Server.Outbound(Hour(p, id, secret, handshakeTranscript), [packet], [packetId], 0).error.None?
  {
    hide PacketFrames, AllFrames, Pack, Printed, Flat, Frames, ClientFrames, FramesBytes, Server.SealAll,
         Limits.ReservePolicy;
    var s := Hour(p, id, secret, handshakeTranscript);
    assert [packet][..0] == [] && Server.Size([packet]) == |packet|;
    HourIsNew(p, id, secret, handshakeTranscript, |packet|);
    OnePacketFrames(packet, packetId);
    AllFramesSendable([packet], [packetId], Server.RECORD_CAPACITY);
    var frames := AllFrames([packet], [packetId], Server.RECORD_CAPACITY).value;
    var groups := Pack([], frames, Server.RECORD_CAPACITY);
    GroupsParse(frames, Server.RECORD_CAPACITY);
    assert |FramesBytes([])| == 0 by { FramesBytesEmpty([]); }
    PackFits([], frames, Server.RECORD_CAPACITY);
    FewGroups(groups);
    forall i | 0 <= i < |Printed(groups)|
      ensures |Printed(groups)[i]| + TAG_LEN <= MAX_CIPHERTEXT_LEN
    {
      assert groups[i] in groups;
    }
    SealAllSucceeds(s.(policy := Limits.ReservePolicy(s.policy, |packet|, 0).0), Printed(groups));
  }

  /** A new session and a new client: whatever packet is too long for one frame and for the client's limit, the
      server sends it and the client ends its session on it. */
  lemma OversizedEndsSession(p: Primitives, id: Bytes, secret: Digest, handshakeTranscript: Digest, packet: Bytes,
                             packetId: nat, moments: nat -> Moment, maximum: nat)
    requires |id| == 16 && packetId < U32_LIMIT
    requires Server.RECORD_CAPACITY < |packet| + 4 < U16_LIMIT + 4 && maximum < |packet|
    ensures var s := Hour(p, id, secret, handshakeTranscript);
            var e := Client_.Endpoint(NewClient(p, id, secret, handshakeTranscript), Ordered(map[], []));
            var sent := Server.Outbound(s, [packet], [packetId], 0);
            && sent.error.None?
            && ReceiveAll(p, e, Records(sent.effects), moments, _ => 0, maximum).error.Some?
  {
    hide PacketFrames, Server.Outbound, ReceiveAll, TrafficKey;
    var s := Hour(p, id, secret, handshakeTranscript);
    var e := Client_.Endpoint(NewClient(p, id, secret, handshakeTranscript), Ordered(map[], []));
    OnePacketLeaves(p, id, secret, handshakeTranscript, packet, packetId);
    OnePacketFrames(packet, packetId);
    var frames := PacketFrames(packet, Server.RECORD_CAPACITY, packetId).value;
    var times: seq<nat> := seq(|frames|, _ => 0);
    assert [times][1..] == [] && Flat([times]) == times + [] == times;
    DownstreamIff(p, s, e, [packet], [packetId], 0, moments, [times], _ => 0, maximum);
    assert !Receivable([packet][0], maximum);
  }

  // ---- From the client to the network ----

  /** The server is in the client's epoch and expects the client's next data record. */
  ghost predicate InStepUp(p: Primitives, s: Session, c: Client) {
    && Safety.Shape(p, s) && s.id == c.id && |s.id| == 16
    && s.current.epoch == c.epoch < U32_LIMIT
    && s.current.c2sData.key == c.keys.c2sData
    && s.current.c2sData.window.Next() == c.dataNumber
  }

  /** The traffic counters have room for some more records. */
  predicate Room(s: Session, records: nat) {
    s.dataRecords + records < U64_LIMIT && s.plaintextBytes + records * MAX_CIPHERTEXT_LEN < U64_LIMIT
  }

  ghost predicate AllGranted(policy: Server.Policy, calls: seq<Limits.Call>) {
    forall k: nat | k < |calls| :: Limits.Outcome(policy, calls, k).Ok?
  }

  lemma GrantedTogether(policy: Server.Policy, a: seq<Limits.Call>, b: seq<Limits.Call>)
    ensures AllGranted(policy, a + b) <==> AllGranted(policy, a) && AllGranted(Limits.After(policy, a), b)
  {
    hide Limits.ReservePolicy, Limits.After;
    var all := a + b;
    forall k: nat | k < |a| ensures Limits.Outcome(policy, all, k) == Limits.Outcome(policy, a, k) {
      assert all[..k] == a[..k];
    }
    forall k: nat | k < |b|
      ensures Limits.Outcome(policy, all, |a| + k) == Limits.Outcome(Limits.After(policy, a), b, k)
    {
      assert all[..|a| + k] == a + b[..k];
      Limits.AfterSplits(policy, a, b[..k]);
    }
    if AllGranted(policy, all) {
      forall k: nat | k < |a| ensures Limits.Outcome(policy, a, k).Ok? {
        assert Limits.Outcome(policy, all, k).Ok?;
      }
      forall k: nat | k < |b| ensures Limits.Outcome(Limits.After(policy, a), b, k).Ok? {
        assert Limits.Outcome(policy, all, |a| + k).Ok?;
      }
    }
    if AllGranted(policy, a) && AllGranted(Limits.After(policy, a), b) {
      forall k: nat | k < |all| ensures Limits.Outcome(policy, all, k).Ok? {
        if k < |a| {
          assert Limits.Outcome(policy, a, k).Ok?;
        } else {
          var j: nat := k - |a|;
          assert Limits.Outcome(Limits.After(policy, a), b, j).Ok? && |a| + j == k;
        }
      }
    }
  }

  lemma OneGranted(policy: Server.Policy, call: Limits.Call)
    ensures var (after, r) := Limits.ReservePolicy(policy, call.bytes, call.now);
            Limits.After(policy, [call]) == after && (AllGranted(policy, [call]) <==> r.Ok?)
  {
    hide Limits.ReservePolicy;
    assert [call][..0] == [];
    assert Limits.Outcome(policy, [call], 0) == Limits.ReservePolicy(policy, call.bytes, call.now).1;
  }

  /** A frame with a packet that passes the server's test. */
  predicate Carries(f: Frame, source: Bytes) {
    f.frameType == PACKET_FRAME && f.flags == 0 && Server.WellFormed(f.body, source)
  }

  ghost predicate AllCarry(frames: seq<Frame>, source: Bytes) {
    forall i | 0 <= i < |frames| :: Carries(frames[i], source)
  }

  function Bodies(frames: seq<Frame>): seq<Bytes> {
    seq(|frames|, i requires 0 <= i < |frames| => frames[i].body)
  }

  /** A step is refused by the policy or not at all; it makes the requests it was to make, up to a refusal. */
  ghost predicate OnlyLimited(s: Server.State, r: Server.Step, requests: seq<Limits.Call>) {
    && r.state.fragments == s.fragments
    && r.state.policy == Limits.After(s.policy, r.asked)
    && r.asked <= requests && (r.error.None? ==> r.asked == requests)
    && (r.error.None? <==> AllGranted(s.policy, r.asked))
  }

  lemma JoinLimited(s: Server.State, first: Server.Step, second: Server.Step, a: seq<Limits.Call>, b: seq<Limits.Call>)
    requires OnlyLimited(s, first, a) && first.error.None? && OnlyLimited(first.state, second, b)
    ensures OnlyLimited(s, Server.Join(first, second), a + b)
  {
    hide AllGranted, Limits.After;
    Limits.AfterSplits(s.policy, first.asked, second.asked);
    GrantedTogether(s.policy, first.asked, second.asked);
  }

  lemma StopLimited(s: Server.State, r: Server.Step, a: seq<Limits.Call>, b: seq<Limits.Call>)
    requires OnlyLimited(s, r, a) && r.error.Some?
    ensures OnlyLimited(s, r, a + b)
  {
    hide AllGranted, Limits.After;
    assert a <= a + b;
  }

  lemma StayLimited(s: Server.State)
    ensures OnlyLimited(s, Server.Stay(s), [])
  {
  }

  /** Whether a step is refused can be told from the requests beforehand. */
  lemma LimitedIff(s: Server.State, r: Server.Step, requests: seq<Limits.Call>)
    requires OnlyLimited(s, r, requests)
    ensures r.error.None? <==> AllGranted(s.policy, requests)
  {
    hide AllGranted, Limits.After;
    assert requests == r.asked + requests[|r.asked|..];
    GrantedTogether(s.policy, r.asked, requests[|r.asked|..]);
  }

  /** The requests that the frames of one record make, one for each packet. */
  function FrameRequests(frames: seq<Frame>, clock: nat -> Server.Reading): seq<Limits.Call> {
    seq(|frames|, i requires 0 <= i < |frames| => Limits.Call(|frames[i].body|, clock(i).shaped))
  }

  /** The requests of all the records. */
  function GroupRequests(groups: seq<seq<Frame>>, contexts: nat -> Server.Context): seq<Limits.Call> {
    if groups == [] then []
    else
      var n := |groups| - 1;
      GroupRequests(groups[..n], contexts) + FrameRequests(groups[n], contexts(n).clock)
  }

  lemma FramePasses(s: Server.State, source: Bytes, f: Frame, clock: Server.Reading)
    requires Carries(f, source)
    ensures var r := Server.DataFrame(s, source, f, clock);
            && OnlyLimited(s, r, [Limits.Call(|f.body|, clock.shaped)]) && r.state.crypto == s.crypto
            && (r.error.None? ==> Server.Packets(r.effects) == [f.body])
  {
    hide Server.CheckIpv4, Server.WellFormed, Limits.ReservePolicy, AllGranted, Limits.After, PushOne, Server.SealOne;
    Server.AcceptedIffWellFormed(f.body, source);
    OneGranted(s.policy, Limits.Call(|f.body|, clock.shaped));
    Server.PacketOf(Server.DataFrame(s, source, f, clock).effects);
  }

  lemma {:induction false} FramesPass(s: Server.State, source: Bytes, frames: seq<Frame>, clock: nat -> Server.Reading)
    requires AllCarry(frames, source)
    ensures var r := Server.DataFrames(s, source, frames, clock);
            && OnlyLimited(s, r, FrameRequests(frames, clock)) && r.state.crypto == s.crypto
            && (r.error.None? ==> Server.Packets(r.effects) == Bodies(frames))
    decreases |frames|
  {
    hide Server.DataFrame, Carries, OnlyLimited, Server.Packets;
    if frames == [] {
      StayLimited(s);
      Server.PacketOf([]);
    } else {
      var n := |frames| - 1;
      FramesPass(s, source, frames[..n], clock);
      var before := Server.DataFrames(s, source, frames[..n], clock);
      var earlier, last := FrameRequests(frames[..n], clock), [Limits.Call(|frames[n].body|, clock(n).shaped)];
      assert FrameRequests(frames, clock) == earlier + last;
      if before.error.Some? {
        StopLimited(s, before, earlier, last);
      } else {
        var step := Server.DataFrame(before.state, source, frames[n], clock(n));
        FramePasses(before.state, source, frames[n], clock(n));
        JoinLimited(s, before, step, earlier, last);
        Server.PacketsSplit(before.effects, step.effects);
        assert Bodies(frames) == Bodies(frames[..n]) + [frames[n].body];
      }
    }
  }

  /** One record of well-formed packets. */
  lemma RecordPasses(p: Primitives, s: Server.State, c: Client, source: Bytes, record: Sealed, frames: seq<Frame>,
                     context: Server.Context)
    requires InStepUp(p, s.crypto, c) && Room(s.crypto, 1) && c.dataNumber < MAX_RECORDS_PER_EPOCH
    requires IsData(record, c.id, c.epoch, c.keys.c2sData, c.dataNumber)
    requires Frames(record.plaintext, Data) == Ok(frames) && AllCarry(frames, source)
    ensures var (r, closed) := Server.Inbound(p, s, source, record, context);
            && !closed && OnlyLimited(s, r, FrameRequests(frames, context.clock))
            && InStepUp(p, r.state.crypto, c.(dataNumber := c.dataNumber + 1))
            && r.state.crypto.dataRecords == s.crypto.dataRecords + 1
            && r.state.crypto.plaintextBytes == s.crypto.plaintextBytes + |record.plaintext|
            && (r.error.None? ==> Server.Packets(r.effects) == Bodies(frames))
  {
    hide Frames, ClientFrames, Open, Safety.Shape, Server.DataFrames, AllCarry, OnlyLimited, Server.Packets,
         Safety.OpenEffect, ExpirePrevious;
    ServerOpensData(p, s.crypto, record, context.arrived);
    Safety.OpenCallEffect(p, s.crypto, record, context.arrived);
    var (crypto, opening) := Open(s.crypto, record, context.arrived);
    var s1 := s.(crypto := crypto);
    ShapedWindow(p, s.crypto);
    NextIsTaken(s.crypto.current.c2sData.window, c.dataNumber);
    CurrentUnexpired(s.crypto, context.arrived);
    FramesPass(s1, source, frames, context.clock);
    var step := Server.DataFrames(s1, source, frames, context.clock);
    var first := Server.Step(s1, [], [Safety.CallOpen(record, context.arrived)], [], None);
    OpenLimited(s, first);
    JoinLimited(s, first, step, [], FrameRequests(frames, context.clock));
    assert [] + FrameRequests(frames, context.clock) == FrameRequests(frames, context.clock);
    Server.PacketsSplit([], step.effects);
    Server.PacketOf([]);
    assert [] + Server.Packets(step.effects) == Server.Packets(step.effects);
  }

  lemma ShapedWindow(p: Primitives, s: Session)
    requires Safety.Shape(p, s)
    ensures s.current.c2sData.window.Valid()
  {
  }

  lemma CurrentUnexpired(s: Session, now: nat)
    ensures ExpirePrevious(s, now) == s.(previous := ExpirePrevious(s, now).previous)
  {
  }

  lemma OpenLimited(s: Server.State, r: Server.Step)
    requires r.state == s.(crypto := r.state.crypto) && r.asked == [] && r.error.None?
    ensures OnlyLimited(s, r, [])
  {
  }

  /** Records of groups of frames, one after the other from the client's next number on. */
  ghost predicate CarryUp(records: seq<Sealed>, groups: seq<seq<Frame>>, c: Client) {
    && |records| == |groups| && c.dataNumber + |records| <= MAX_RECORDS_PER_EPOCH
    && forall i | 0 <= i < |records| ::
         IsData(records[i], c.id, c.epoch, c.keys.c2sData, c.dataNumber + i)
           && Frames(records[i].plaintext, Data) == Ok(groups[i])
  }

  function Arriving(records: seq<Sealed>, contexts: nat -> Server.Context): seq<Server.Event> {
    seq(|records|, i requires 0 <= i < |records| => Server.FromClient(records[i], contexts(i)))
  }

  lemma {:induction false} RecordsPass(p: Primitives, s: Server.State, c: Client, source: Bytes, records: seq<Sealed>,
                                       groups: seq<seq<Frame>>, contexts: nat -> Server.Context)
    requires InStepUp(p, s.crypto, c) && Room(s.crypto, |records|) && CarryUp(records, groups, c)
    requires forall i | 0 <= i < |groups| :: AllCarry(groups[i], source)
    ensures var (r, closed) := Server.Run(p, s, source, Arriving(records, contexts));
            && !closed && OnlyLimited(s, r, GroupRequests(groups, contexts))
            && (r.error.None? ==>
                  && InStepUp(p, r.state.crypto, c.(dataNumber := c.dataNumber + |records|))
                  && r.state.crypto.dataRecords == s.crypto.dataRecords + |records|
                  && r.state.crypto.plaintextBytes <= s.crypto.plaintextBytes + |records| * MAX_CIPHERTEXT_LEN
                  && Server.Packets(r.effects) == Bodies(Flat(groups)))
    decreases |records|
  {
    hide Frames, Server.Inbound, InStepUp, OnlyLimited, AllCarry, Server.Packets, GoodPlaintext, Flat, Bodies,
         Server.Join;
    NoFrames();
    if records == [] {
      StayLimited(s);
      Server.PacketOf([]);
      assert c.(dataNumber := c.dataNumber + 0) == c;
    } else {
      var n := |records| - 1;
      RecordsPass(p, s, c, source, records[..n], groups[..n], contexts);
      var events := Arriving(records, contexts);
      assert events[..n] == Arriving(records[..n], contexts);
      var before := Server.Run(p, s, source, events[..n]).0;
      var earlier, last := GroupRequests(groups[..n], contexts), FrameRequests(groups[n], contexts(n).clock);
      if before.error.Some? {
        StopLimited(s, before, earlier, last);
      } else {
        PlaintextSize(records[n]);
        RecordPasses(p, before.state, c.(dataNumber := c.dataNumber + n), source, records[n], groups[n], contexts(n));
        var step := Server.Inbound(p, before.state, source, records[n], contexts(n)).0;
        JoinLimited(s, before, step, earlier, last);
        Server.PacketsSplit(before.effects, step.effects);
        FlatSplits(groups[..n], groups[n]);
        assert groups[..n] + [groups[n]] == groups;
        BodiesTogether(Flat(groups[..n]), groups[n]);
        JoinEffects(before, step);
      }
    }
  }

  lemma NoFrames()
    ensures Bodies(Flat([])) == []
  {
  }

  lemma BodiesTogether(a: seq<Frame>, b: seq<Frame>)
    ensures Bodies(a + b) == Bodies(a) + Bodies(b)
  {
  }

  lemma JoinEffects(first: Server.Step, second: Server.Step)
    ensures var both := Server.Join(first, second);
            both.effects == first.effects + second.effects && both.error == second.error && both.state == second.state
  {
  }

  lemma PlaintextSize(r: Sealed)
    ensures GoodPlaintext(r.plaintext) ==> |r.plaintext| <= MAX_CIPHERTEXT_LEN
  {
    hide Frames, ClientFrames;
  }

  // ---- The client sends ----

  lemma {:induction false} SendAllSends(c: Client, plaintexts: seq<Bytes>)
    requires Client_.SendAll(c, plaintexts).error.None?
    ensures var sent := Client_.SendAll(c, plaintexts);
            && sent.client == c.(dataNumber := c.dataNumber + |plaintexts|) && |sent.records| == |plaintexts|
            && forall i | 0 <= i < |plaintexts| ::
                 sent.records[i] == SealAs(c.id, Data, c.epoch, c.keys.c2sData, c.dataNumber + i, plaintexts[i])
    decreases |plaintexts|
  {
    if plaintexts == [] {
      assert c.(dataNumber := c.dataNumber + 0) == c;
    } else {
      SendAllSends(c, plaintexts[..|plaintexts| - 1]);
    }
  }

  lemma EpochFits(p: Primitives, s: Session, c: Client)
    requires InStepUp(p, s, c)
    ensures c.epoch < U32_LIMIT
  {
  }

  lemma Sizes(packets: seq<Bytes>, source: Bytes)
    requires forall i | 0 <= i < |packets| :: Server.WellFormed(packets[i], source)
    ensures forall i | 0 <= i < |packets| :: |packets[i]| <= 1280
  {
    forall i | 0 <= i < |packets| ensures |packets[i]| <= 1280 { assert Server.WellFormed(packets[i], source); }
  }

  lemma GroupCarries(groups: seq<seq<Frame>>, source: Bytes)
    requires AllCarry(Flat(groups), source)
    ensures forall i | 0 <= i < |groups| :: AllCarry(groups[i], source)
  {
    hide Carries, Flat;
    forall i, j | 0 <= i < |groups| && 0 <= j < |groups[i]|
      ensures Carries(groups[i][j], source)
    {
      FlatHolds(groups, groups[i], groups[i][j]);
      var k :| 0 <= k < |Flat(groups)| && Flat(groups)[k] == groups[i][j];
      assert Carries(Flat(groups)[k], source);
    }
  }

  /** How many records a batch of packets takes. */
  /** What the packets will ask of the server's policy: for each its size, when the context of its record has the
      clock read for it. */
  function Requests(packets: seq<Bytes>, mtu: nat, contexts: nat -> Server.Context): seq<Limits.Call> {
    match Client_.FramesOf(packets, mtu)
    case Ok(frames) => GroupRequests(Pack([], frames, Client_.RECORD_CAPACITY), contexts)
    case Err(_) => []
  }

  /** Packets from the client that pass the server's test: the server hands on exactly these packets in this
      order, if and only if its policy grants their requests; nothing else refuses any of them. Both ends stay
      in step. */
  lemma UpstreamIff(p: Primitives, s: Server.State, c: Client, source: Bytes, packets: seq<Bytes>, mtu: nat,
                    contexts: nat -> Server.Context)
    requires InStepUp(p, s.crypto, c) && Room(s.crypto, Client_.RecordCount(packets, mtu))
    requires c.dataNumber + Client_.RecordCount(packets, mtu) <= MAX_RECORDS_PER_EPOCH
    requires forall i | 0 <= i < |packets| :: |packets[i]| <= mtu && Server.WellFormed(packets[i], source)
    ensures var sent := Client_.SendPackets(c, packets, mtu);
            var (r, closed) := Server.Run(p, s, source, Arriving(sent.records, contexts));
            && sent.error.None? && !closed
            && (r.error.None? <==> AllGranted(s.policy, Requests(packets, mtu, contexts)))
            && (r.error.None? ==> Server.Packets(r.effects) == packets && InStepUp(p, r.state.crypto, sent.client))
  {
    hide Pack, Printed, Flat, Frames, ClientFrames, FramesBytes, Client_.SendAll, Client_.FramesOf, InStepUp,
         Server.Run, Server.WellFormed, Server.Packets, AllGranted, GroupRequests, OnlyLimited;
    assert forall i | 0 <= i < |packets| :: |packets[i]| <= 1280 by { Sizes(packets, source); }
    EpochFits(p, s.crypto, c);
    Client_.SentIff(c, packets, mtu);
    Client_.FramesOfIff(packets, mtu);
    var sent := Client_.SendPackets(c, packets, mtu);
    var plaintexts := Client_.Batches(packets, mtu).value;
    var frames := Client_.FramesOf(packets, mtu).value;
    var groups := Pack([], frames, Client_.RECORD_CAPACITY);
    assert forall i | 0 <= i < |frames| :: frames[i] == Frame(PACKET_FRAME, 0, packets[i]);
    assert forall i | 0 <= i < |frames| :: Sendable(frames[i], Client_.RECORD_CAPACITY);
    GroupsParse(frames, Client_.RECORD_CAPACITY);
    SendAllSends(c, plaintexts);
    assert |FramesBytes([])| == 0 by { FramesBytesEmpty([]); }
    PackFits([], frames, Client_.RECORD_CAPACITY);
    SentCarriesUp(c, frames, groups, sent.records);
    assert forall i | 0 <= i < |frames| :: Carries(frames[i], source);
    GroupCarries(groups, source);
    RecordsPass(p, s, c, source, sent.records, groups, contexts);
    LimitedIff(s, Server.Run(p, s, source, Arriving(sent.records, contexts)).0, Requests(packets, mtu, contexts));
    assert Bodies(frames) == packets;
  }

  lemma SentCarriesUp(c: Client, frames: seq<Frame>, groups: seq<seq<Frame>>, records: seq<Sealed>)
    requires |records| == |groups| && c.dataNumber + |records| <= MAX_RECORDS_PER_EPOCH
             && Fitting(groups, Client_.RECORD_CAPACITY)
    requires forall i | 0 <= i < |groups| ::
               && records[i] == SealAs(c.id, Data, c.epoch, c.keys.c2sData, c.dataNumber + i, FramesBytes(groups[i]))
               && Frames(FramesBytes(groups[i]), Data) == Ok(groups[i])
               && ClientFrames(FramesBytes(groups[i])) == Ok(groups[i])
    ensures CarryUp(records, groups, c)
  {
    hide FramesBytes, Frames, ClientFrames;
    forall i | 0 <= i < |records|
      ensures IsData(records[i], c.id, c.epoch, c.keys.c2sData, c.dataNumber + i)
              && Frames(records[i].plaintext, Data) == Ok(groups[i])
    {
      assert groups[i] in groups;
    }
  }

  // ---- After any run ----

  /** Whatever updates and data a run of client and server saw, whenever it is at rest both ends are in step, in
      both directions; so `DownstreamIff` and `UpstreamIff` speak of every epoch. */
  lemma AtRestInStep(p: Primitives, env: ServerRecords.Env, id: Bytes, secret: Digest, handshakeTranscript: Digest,
                     now: nat, events: seq<Event>)
    requires |id| == 16
    requires Run(p, env, Start(p, id, secret, handshakeTranscript, now), events).Happens?
    ensures var w := Run(p, env, Start(p, id, secret, handshakeTranscript, now), events).world;
            Quiescent(w) ==> InStepDown(w.server, w.client) && InStepUp(p, w.server, w.client)
  {
    hide TranscriptNext, LabelledTag, UpdateInput, ConfirmationKey, FrameBytes, TrafficKey, RequestRecord, Take,
         BigEndian, InitPlaintext;
    var start := Start(p, id, secret, handshakeTranscript, now);
    Agreement.StartIsIdle(p, id, secret, handshakeTranscript, now);
    Agreement.RunKeepsInv(p, env, start, events);
    var w := Run(p, env, start, events).world;
    var m :| InvAt(p, w, m);
    if Quiescent(w) {
      Agreement.AtRestEpochsAgree(p, w, m);
      Agreement.KeysAgree(p, w, m);
      Agreement.EpochsFit(p, w, m);
    }
  }
}
