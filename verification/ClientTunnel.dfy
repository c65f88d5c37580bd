/** Packets on the client: what it makes of the records it receives, and the records it makes of the packets it
    sends. */
module ClientTunnel {
  import opened Prelude
  import opened Record
  import opened ReplayWindow
  import opened Rekey
  import opened ClientCore
  import opened Reassembly
  import opened ClientReassembly
  import opened PacketBatch
  import Impl = RekaSession

  const RECORD_CAPACITY: nat := 4080

  datatype TunnelError = Refused(error: ClientError) | BadFragment(fragment: FragmentError) | ExceedsMtu |
    ExceedsCapacity

  /** The session and its reassembler; one lock guards both. */
  datatype Endpoint = Endpoint(client: Client, reassembly: Ordered)

  // ---- Receiving ----

  datatype Taken = Taken(reassembly: Ordered, packets: seq<Bytes>, error: Option<FragmentError>)

  ghost function TakeFrame(o: Ordered, f: Frame, now: nat, maximum: nat): Taken {
    if f.frameType == PACKET_FRAME then Taken(o, [f.body], None)
    else if f.frameType == FRAGMENT_FRAME then
      var (o1, r) := OrderedPush(o, f.body, now, maximum);
      match r
      case Err(e) => Taken(o1, [], Some(e))
      case Ok(None) => Taken(o1, [], None)
      case Ok(Some(packet)) => Taken(o1, [packet], None)
    else Taken(o, [], None)
  }

  /** The frames of a data record, the last one last; `clock(i)` is what the clock shows at frame `i`. */
  ghost function TakeFrames(o: Ordered, frames: seq<Frame>, clock: nat -> nat, maximum: nat): Taken
    decreases |frames|
  {
    if frames == [] then Taken(o, [], None)
    else
      var n := |frames| - 1;
      var before := TakeFrames(o, frames[..n], clock, maximum);
      if before.error.Some? then before
      else
        var last := TakeFrame(before.reassembly, frames[n], clock(n), maximum);
        Taken(last.reassembly, before.packets + last.packets, last.error)
  }

  /** The packets of a record, and a record to send in answer. A bad fragment loses the packets before it. */
  datatype Delivery = Delivery(packets: seq<Bytes>, reply: Option<Sealed>)

  ghost function ReceivePackets(p: Primitives, e: Endpoint, record: Sealed, nonce: Digest, now: nat, clock: nat -> nat,
                                maximum: nat)
    : (Endpoint, Result<Delivery, TunnelError>)
  {
    var (client, r) := Receive(p, e.client, record, nonce, now);
    if r.Err? then (e.(client := client), Err(Refused(r.error)))
    else
      var taken := TakeFrames(e.reassembly, r.value.data, clock, maximum);
      (Endpoint(client, taken.reassembly),
       if taken.error.Some? then Err(BadFragment(taken.error.value)) else Ok(Delivery(taken.packets, r.value.reply)))
  }

  // ---- Sending ----

  function PacketFrame(packet: Bytes, mtu: nat): Result<Frame, TunnelError> {
    if |packet| > mtu then Err(ExceedsMtu)
    else if 4 + |packet| > RECORD_CAPACITY then Err(ExceedsCapacity)
    else Ok(Frame(PACKET_FRAME, 0, packet))
  }

  function FramesOf(packets: seq<Bytes>, mtu: nat): Result<seq<Frame>, TunnelError> {
    if packets == [] then Ok([])
    else
      var first :- PacketFrame(packets[0], mtu);
      var rest :- FramesOf(packets[1..], mtu);
      Ok([first] + rest)
  }

  function Batches(packets: seq<Bytes>, mtu: nat): Result<seq<Bytes>, TunnelError> {
    var frames :- FramesOf(packets, mtu);
    Ok(Printed(Pack([], frames, RECORD_CAPACITY)))
  }

  datatype Sent = Sent(client: Client, records: seq<Sealed>, error: Option<TunnelError>)

  function SendAll(c: Client, plaintexts: seq<Bytes>): Sent
    decreases |plaintexts|
  {
    if plaintexts == [] then Sent(c, [], None)
    else
      var n := |plaintexts| - 1;
      var before := SendAll(c, plaintexts[..n]);
      if before.error.Some? then before
      else
        var (client, r) := SendData(before.client, plaintexts[n]);
        match r
        case Err(e) => Sent(client, before.records, Some(Refused(e)))
        case Ok(record) => Sent(client, before.records + [record], None)
  }

  /** Nothing is sent unless every packet can be. */
  function SendPackets(c: Client, packets: seq<Bytes>, mtu: nat): Sent {
    match Batches(packets, mtu)
    case Err(e) => Sent(c, [], Some(e))
    case Ok(plaintexts) => SendAll(c, plaintexts)
  }

  lemma {:induction false} FramesOfIff(packets: seq<Bytes>, mtu: nat)
    ensures FramesOf(packets, mtu).Ok? <==> forall i | 0 <= i < |packets| ::
            |packets[i]| <= mtu && 4 + |packets[i]| <= 4080
    ensures var r := FramesOf(packets, mtu);
            r.Ok? ==> |r.value| == |packets|
                      && forall i | 0 <= i < |packets| :: r.value[i] == Frame(PACKET_FRAME, 0, packets[i])
    decreases |packets|
  {
    if packets != [] {
      FramesOfIff(packets[1..], mtu);
      assert packets == [packets[0]] + packets[1..];
    }
  }

  lemma {:induction false} SendAllIff(c: Client, plaintexts: seq<Bytes>)
    requires c.epoch < U32_LIMIT && forall i | 0 <= i < |plaintexts| :: |plaintexts[i]| <= 4080
    ensures var sent := SendAll(c, plaintexts);
            && (sent.error.None? <==> plaintexts == [] || c.dataNumber + |plaintexts| <= U64_LIMIT)
            && (sent.error.None? ==> sent.client == c.(dataNumber := c.dataNumber + |plaintexts|))
    decreases |plaintexts|
  {
    if plaintexts == [] {
      assert c.(dataNumber := c.dataNumber + 0) == c;
    } else {
      SendAllIff(c, plaintexts[..|plaintexts| - 1]);
    }
  }

  /** How many records the packets make. */
  function RecordCount(packets: seq<Bytes>, mtu: nat): nat {
    match Batches(packets, mtu)
    case Ok(plaintexts) => |plaintexts|
    case Err(_) => 0
  }

  /** Packets are sent exactly when each is within the MTU and fits a record, and the numbers last. */
  lemma SentIff(c: Client, packets: seq<Bytes>, mtu: nat)
    requires c.epoch < U32_LIMIT
    ensures SendPackets(c, packets, mtu).error.None? <==>
              && (forall i | 0 <= i < |packets| :: |packets[i]| <= mtu && 4 + |packets[i]| <= 4080)
              && (RecordCount(packets, mtu) == 0 || c.dataNumber + RecordCount(packets, mtu) <= U64_LIMIT)
  {
    hide Pack, SendAll, FramesOf, FramesBytes;
    FramesOfIff(packets, mtu);
    if FramesOf(packets, mtu).Ok? {
      var frames := FramesOf(packets, mtu).value;
      assert |FramesBytes([])| == 0 by { FramesBytesEmpty([]); }
      forall f | f in frames ensures Sendable(f, RECORD_CAPACITY) {
        var i :| 0 <= i < |frames| && frames[i] == f;
        assert f == Frame(PACKET_FRAME, 0, packets[i]);
      }
      PackFits([], frames, RECORD_CAPACITY);
      PrintedFits(Pack([], frames, RECORD_CAPACITY), RECORD_CAPACITY);
      SendAllIff(c, Batches(packets, mtu).value);
    }
  }

  // ---- The object ----

  class PacketSession {
    const session: Impl.RekaSession
    const fragments: ClientReassembler
    const mtu: nat

    ghost predicate Valid()
      reads session, session.Repr, fragments
    {
      session.Valid() && fragments.Valid() && fragments !in session.Repr && fragments.maximumPacket == mtu
    }

    ghost function Model(): Endpoint
      requires Valid()
      reads session, session.Repr, fragments
    {
      Endpoint(session.Model(), fragments.Model())
    }

    constructor (session: Impl.RekaSession, mtu: nat)
      requires session.Valid()
      ensures Valid() && fresh(fragments) && this.session == session && this.mtu == mtu
      ensures Model() == Endpoint(session.Model(), Ordered(map[], []))
    {
      hide Inv;
      this.session := session;
      this.mtu := mtu;
      fragments := new ClientReassembler(mtu);
      new;
      assert Counted(map[]).Keys == {};
    }

    method ReceiveRecord(record: Sealed, nonce: Digest, now: nat, clock: nat -> nat)
      returns (r: Result<Delivery, TunnelError>)
      requires Valid()
      modifies session.Repr, fragments
      ensures Valid() && fresh(session.Repr - old(session.Repr))
      ensures (Model(), r) == ReceivePackets(session.p, old(Model()), record, nonce, now, clock, mtu)
    {
      hide Receive, OrderedPush, Impl.RekaSession.Valid, Impl.RekaSession.Model, ClientReassembler.Valid,
           ClientReassembler.Model;
      var received := session.Receive(record, nonce, now);
      if received.Err? {
        return Err(Refused(received.error));
      }
      ghost var start := fragments.Model();
      var frames := received.value.data;
      var packets: seq<Bytes> := [];
      for i := 0 to |frames|
        invariant Valid() && session.Model() == Receive(session.p, old(session.Model()), record, nonce, now).0
        invariant fresh(session.Repr - old(session.Repr))
        invariant TakeFrames(start, frames[..i], clock, mtu) == Taken(fragments.Model(), packets, None)
      {
        assert frames[..i + 1][..i] == frames[..i] && frames[..i + 1][i] == frames[i];
        if frames[i].frameType == PACKET_FRAME {
          packets := packets + [frames[i].body];
        } else if frames[i].frameType == FRAGMENT_FRAME {
          var packet := fragments.Push(frames[i].body, clock(i));
          if packet.Err? {
            TakeFramesStop(start, frames, clock, mtu, i + 1);
            return Err(BadFragment(packet.error));
          }
          if packet.value.Some? {
            packets := packets + [packet.value.value];
          }
        }
      }
      assert frames[..|frames|] == frames;
      return Ok(Delivery(packets, received.value.reply));
    }

    method SendPacketBatch(packets: seq<Bytes>) returns (records: seq<Sealed>, error: Option<TunnelError>)
      requires Valid()
      modifies session.Repr
      ensures Valid() && session.Repr == old(session.Repr)
      ensures var r := SendPackets(old(Model()).client, packets, mtu);
              Model() == old(Model()).(client := r.client) && records == r.records && error == r.error
    {
      hide Batches, SendData, Impl.RekaSession.Valid, Impl.RekaSession.Model, ClientReassembler.Valid,
           ClientReassembler.Model;
      records, error := [], None;
      var plaintexts := MakeBatches(packets, mtu);
      if plaintexts.Err? {
        return [], Some(plaintexts.error);
      }
      var batches := plaintexts.value;
      for i := 0 to |batches|
        invariant Valid() && session.Repr == old(session.Repr) && fragments.Model() == old(fragments.Model())
        invariant SendAll(old(session.Model()), batches[..i]) == Sent(session.Model(), records, None) && error.None?
      {
        assert batches[..i + 1][..i] == batches[..i] && batches[..i + 1][i] == batches[i];
        var record := SendOne(batches[i]);
        if record.Err? {
          SendAllStop(old(session.Model()), batches, i + 1);
          return records, Some(Refused(record.error));
        }
        records := records + [record.value];
      }
      assert batches[..|batches|] == batches;
    }

    method SendOne(plaintext: Bytes) returns (r: Result<Sealed, ClientError>)
      requires session.Valid()
      modifies session.Repr
      ensures session.Valid() && session.Repr == old(session.Repr)
      ensures (session.Model(), r) == SendData(old(session.Model()), plaintext)
    {
      hide SendData;
      r := session.SendData(plaintext);
    }

    static method MakeBatches(packets: seq<Bytes>, mtu: nat) returns (r: Result<seq<Bytes>, TunnelError>)
      ensures r == Batches(packets, mtu)
    {
      hide FrameBytes, FramesBytes, Pack;
      var batches: seq<Bytes> := [];
      var plaintext: Bytes := [];
      ghost var current: seq<Frame> := [];
      FramesBytesEmpty([]);
      assert packets[0..] == packets;
      NothingBatched(packets, mtu);
      for i := 0 to |packets|
        invariant plaintext == FramesBytes(current)
        invariant Batches(packets, mtu) == Rest(batches, current, FramesOf(packets[i..], mtu))
      {
        assert packets[i..][1..] == packets[i + 1..];
        var packet := packets[i];
        if |packet| > mtu {
          return Err(ExceedsMtu);
        }
        if 4 + |packet| > RECORD_CAPACITY {
          return Err(ExceedsCapacity);
        }
        var f := Frame(PACKET_FRAME, 0, packet);
        var encoded := FrameBytes(f);
        OneMore(batches, current, f, FramesOf(packets[i + 1..], mtu));
        FramesBytesEmpty(current);
        FramesBytesAppend(current, f);
        FramesBytesAppend([], f);
        assert [] + [f] == [f];
        if plaintext != [] && |plaintext| + |encoded| > RECORD_CAPACITY {
          batches := batches + [plaintext];
          plaintext := [];
          current := [];
        }
        plaintext := plaintext + encoded;
        current := current + [f];
      }
      FramesBytesEmpty(current);
      assert packets[|packets|..] == [];
      LastBatch(batches, current);
      if plaintext != [] {
        batches := batches + [plaintext];
      }
      return Ok(batches);
    }
  }

  // ---- The loops ----

  /** The result once `batches` were closed and `current` is under way. */
  ghost function Rest(batches: seq<Bytes>, current: seq<Frame>, rest: Result<seq<Frame>, TunnelError>)
    : Result<seq<Bytes>, TunnelError>
  {
    match rest
    case Ok(frames) => Ok(batches + Printed(Pack(current, frames, RECORD_CAPACITY)))
    case Err(e) => Err(e)
  }

  lemma NothingBatched(packets: seq<Bytes>, mtu: nat)
    ensures Batches(packets, mtu) == Rest([], [], FramesOf(packets, mtu))
  {
    hide Pack;
    var frames := FramesOf(packets, mtu);
    if frames.Ok? {
      assert [] + Printed(Pack([], frames.value, RECORD_CAPACITY)) == Printed(Pack([], frames.value, RECORD_CAPACITY));
    }
  }

  lemma OneMore(batches: seq<Bytes>, current: seq<Frame>, f: Frame, rest: Result<seq<Frame>, TunnelError>)
    ensures var full := current != [] && |FramesBytes(current)| + |FrameBytes(f)| > RECORD_CAPACITY;
            (if rest.Ok? then Rest(batches, current, Ok([f] + rest.value)) else Rest(batches, current, Err(rest.error)))
            == Rest(if full then batches + [FramesBytes(current)] else batches, if full then [f]
                    else current + [f], rest)
  {
    hide FramesBytes, FrameBytes;
    if rest.Ok? {
      assert ([f] + rest.value)[1..] == rest.value;
      var more := Pack([f], rest.value, RECORD_CAPACITY);
      assert ([current] + more)[1..] == more;
      assert Printed([current] + more) == [FramesBytes(current)] + Printed(more);
      assert batches + ([FramesBytes(current)] + Printed(more)) == batches + [FramesBytes(current)] + Printed(more);
    }
  }

  lemma LastBatch(batches: seq<Bytes>, current: seq<Frame>)
    ensures Rest(batches, current, Ok([])) == Ok(if current != [] then batches + [FramesBytes(current)] else batches)
  {
    hide FramesBytes;
    if current == [] {
      assert Printed(Pack(current, [], RECORD_CAPACITY)) == [] && batches + [] == batches;
    } else {
      assert Pack(current, [], RECORD_CAPACITY) == [current] && [current][1..] == [];
      assert Printed([current]) == [FramesBytes(current)];
    }
  }

  lemma {:induction false} TakeFramesStop(o: Ordered, frames: seq<Frame>, clock: nat -> nat, maximum: nat, k: nat)
    requires k <= |frames| && TakeFrames(o, frames[..k], clock, maximum).error.Some?
    ensures TakeFrames(o, frames, clock, maximum) == TakeFrames(o, frames[..k], clock, maximum)
    decreases |frames|
  {
    hide TakeFrame;
    if k < |frames| {
      var n := |frames| - 1;
      assert frames[..n][..k] == frames[..k];
      TakeFramesStop(o, frames[..n], clock, maximum, k);
    } else {
      assert frames[..k] == frames;
    }
  }

  lemma {:induction false} SendAllStop(c: Client, plaintexts: seq<Bytes>, k: nat)
    requires k <= |plaintexts| && SendAll(c, plaintexts[..k]).error.Some?
    ensures SendAll(c, plaintexts) == SendAll(c, plaintexts[..k])
    decreases |plaintexts|
  {
    hide SendData;
    if k < |plaintexts| {
      var n := |plaintexts| - 1;
      assert plaintexts[..n][..k] == plaintexts[..k];
      SendAllStop(c, plaintexts[..n], k);
    } else {
      assert plaintexts[..k] == plaintexts;
    }
  }
}
