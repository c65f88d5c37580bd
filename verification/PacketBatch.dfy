/** Batching of packets into record plaintexts: small packets travel in one frame, large ones are cut into
    fragments, and frames are packed greedily into records of a given capacity. */
module PacketBatch {
  import opened Prelude
  import opened Record
  import opened Reassembly
  import opened ReassemblyOrder

  const PACKET_FRAME: byte := 0x01
  const FRAGMENT_FRAME: byte := 0x03
  const FRAGMENT_OVERHEAD: nat := 14

  /** `NoRoomForData` stands for the panic of cutting a packet into chunks of length zero. */
  datatype BatchError = FrameTooLarge | CapacityTooSmall | PacketTooLarge | NoRoomForData

  // ---- Cutting one packet ----

  function ChunkCount(size: nat, chunk: nat): nat
    requires chunk > 0
  {
    (size + chunk - 1) / chunk
  }

  function ChunkStart(size: nat, chunk: nat, i: nat): nat {
    Min(i * chunk, size)
  }

  function ChunkCuts(size: nat, chunk: nat): seq<nat>
    requires chunk > 0
  {
    seq(ChunkCount(size, chunk) + 1, i requires 0 <= i => ChunkStart(size, chunk, i))
  }

  lemma ChunkCountBounds(size: nat, chunk: nat)
    requires size > 0 && chunk > 0
    ensures var n := ChunkCount(size, chunk); n > 0 && (n - 1) * chunk < size <= n * chunk
  {
    var n := ChunkCount(size, chunk);
    var r := (size + chunk - 1) % chunk;
    assert size + chunk - 1 == n * chunk + r;
    assert (n - 1) * chunk == n * chunk - chunk;
    assert r < chunk;
  }

  lemma Times(i: nat, j: nat, chunk: nat)
    requires i <= j
    ensures i * chunk <= j * chunk && (i + 1) * chunk == i * chunk + chunk
  {
  }

  /** Chunks of one size cut a packet into non-empty parts, none longer than a chunk. */
  lemma ChunksCut(size: nat, chunk: nat)
    requires size > 0 && chunk > 0
    ensures var cuts := ChunkCuts(size, chunk);
            && Cuts(cuts, size)
            && (forall i | 0 <= i < |cuts| - 1 :: cuts[i] == i * chunk && cuts[i + 1] - cuts[i] <= chunk)
  {
    var n := ChunkCount(size, chunk);
    ChunkCountBounds(size, chunk);
    forall i: nat | i < n
      ensures ChunkStart(size, chunk, i) == i * chunk
      ensures i * chunk < ChunkStart(size, chunk, i + 1) <= i * chunk + chunk
    {
      Times(i, n - 1, chunk);
    }
  }

  function FragmentFrame(packet: Bytes, cuts: seq<nat>, id: nat, i: nat): Frame
    requires Cuts(cuts, |packet|) && i < Count(cuts)
  {
    Frame(FRAGMENT_FRAME, 0, Encode(FragmentOf(packet, cuts, id, i)))
  }

  function FragmentFrames(packet: Bytes, chunk: nat, id: nat): seq<Frame>
    requires chunk > 0 && |packet| > 0
  {
    ChunksCut(|packet|, chunk);
    var cuts := ChunkCuts(|packet|, chunk);
    seq(Count(cuts), i requires 0 <= i < Count(cuts) => FragmentFrame(packet, cuts, id, i))
  }

  /** The frames a packet travels in; `id` is the random identifier drawn for it. */
  function PacketFrames(packet: Bytes, capacity: nat, id: nat): Result<seq<Frame>, BatchError> {
    if |packet| + 4 <= capacity then
      if |packet| >= U16_LIMIT then Err(FrameTooLarge) else Ok([Frame(PACKET_FRAME, 0, packet)])
    else if capacity < FRAGMENT_OVERHEAD then Err(CapacityTooSmall)
    else if |packet| >= U16_LIMIT then Err(PacketTooLarge)
    else if capacity == FRAGMENT_OVERHEAD then Err(NoRoomForData)
    else Ok(FragmentFrames(packet, capacity - FRAGMENT_OVERHEAD, id))
  }

  /** A frame either parser accepts and a record has room for. */
  predicate Sendable(f: Frame, capacity: nat) {
    Known(Data, f.frameType) && f.flags == 0 && |f.body| < U16_LIMIT && 4 + |f.body| <= capacity
  }

  predicate AllSendable(frames: seq<Frame>, capacity: nat) {
    forall f | f in frames :: Sendable(f, capacity)
  }

  /** Exactly when a packet can be sent; then all of its frames fit. */
  lemma PacketSendable(packet: Bytes, capacity: nat, id: nat)
    ensures var r := PacketFrames(packet, capacity, id);
            && (r.Ok? <==> |packet| < U16_LIMIT && (|packet| + 4 <= capacity || capacity > FRAGMENT_OVERHEAD))
            && (r.Ok? ==> r.value != [] && AllSendable(r.value, capacity))
  {
    var r := PacketFrames(packet, capacity, id);
    if r.Ok? && |packet| + 4 > capacity {
      var chunk := capacity - FRAGMENT_OVERHEAD;
      var cuts := ChunkCuts(|packet|, chunk);
      ChunksCut(|packet|, chunk);
      forall i | 0 <= i < Count(cuts)
        ensures Sendable(FragmentFrame(packet, cuts, id, i), capacity)
      {
        CutsReachEnd(cuts, |packet|, i + 1);
        FragmentLayout(FragmentOf(packet, cuts, id, i));
      }
    }
  }

  // ---- Packing ----

  function AllFrames(packets: seq<Bytes>, ids: seq<nat>, capacity: nat): Result<seq<Frame>, BatchError>
    requires |ids| == |packets|
  {
    if packets == [] then Ok([])
    else
      var first :- PacketFrames(packets[0], capacity, ids[0]);
      var rest :- AllFrames(packets[1..], ids[1..], capacity);
      Ok(first + rest)
  }

  /** Greedy packing: a record is closed when the next frame does not fit behind it. */
  function Pack(current: seq<Frame>, frames: seq<Frame>, capacity: nat): seq<seq<Frame>>
    decreases |frames|
  {
    if frames == [] then if current == [] then [] else [current]
    else if current != [] && |FramesBytes(current)| + |FrameBytes(frames[0])| > capacity
    then [current] + Pack([frames[0]], frames[1..], capacity)
    else Pack(current + [frames[0]], frames[1..], capacity)
  }

  function Printed(groups: seq<seq<Frame>>): seq<Bytes> {
    if groups == [] then [] else [FramesBytes(groups[0])] + Printed(groups[1..])
  }

  function Batched(packets: seq<Bytes>, ids: seq<nat>, capacity: nat): Result<seq<Bytes>, BatchError>
    requires |ids| == |packets|
  {
    var frames :- AllFrames(packets, ids, capacity);
    Ok(Printed(Pack([], frames, capacity)))
  }

  function Flat<T>(lists: seq<seq<T>>): seq<T> {
    if lists == [] then [] else lists[0] + Flat(lists[1..])
  }

  lemma FramesBytesAppend(frames: seq<Frame>, f: Frame)
    ensures FramesBytes(frames + [f]) == FramesBytes(frames) + FrameBytes(f)
  {
    FramesBytesConcat(frames, [f]);
    assert FramesBytes([f]) == FrameBytes(f) + FramesBytes([]);
  }

  lemma FramesBytesEmpty(frames: seq<Frame>)
    ensures FramesBytes(frames) == [] <==> frames == []
  {
  }

  /** Every group is a record: non-empty and within the capacity. */
  predicate Fitting(groups: seq<seq<Frame>>, capacity: nat) {
    forall g | g in groups :: g != [] && |FramesBytes(g)| <= capacity
  }

  lemma {:induction false} PrintedFits(groups: seq<seq<Frame>>, capacity: nat)
    requires Fitting(groups, capacity)
    ensures |Printed(groups)| == |groups|
    ensures forall i | 0 <= i < |groups| :: |Printed(groups)[i]| <= capacity
    decreases |groups|
  {
    hide FramesBytes;
    if groups != [] {
      assert forall g | g in groups[1..] :: g in groups;
      PrintedFits(groups[1..], capacity);
    }
  }

  /** Record `i` had no room left for the next frame. */
  predicate Full(groups: seq<seq<Frame>>, capacity: nat, i: nat)
    requires i + 1 < |groups|
  {
    groups[i + 1] != [] && |FramesBytes(groups[i])| + |FrameBytes(groups[i + 1][0])| > capacity
  }

  /** No record is closed that the next frame would still have fitted into. */
  predicate Greedy(groups: seq<seq<Frame>>, capacity: nat) {
    forall i: nat | i < |groups| - 1 :: Full(groups, capacity, i)
  }

  /** Packing splits the frames into runs, in order. */
  lemma {:induction false} PackSplits(current: seq<Frame>, frames: seq<Frame>, capacity: nat)
    ensures var groups := Pack(current, frames, capacity);
            && Flat(groups) == current + frames
            && (current != [] ==> groups != [] && current <= groups[0])
    decreases |frames|
  {
    hide FramesBytes, FrameBytes;
    if frames == [] {
      if current != [] { assert Flat([current]) == current + Flat([current][1..]); }
    } else {
      var f := frames[0];
      PackSplits([f], frames[1..], capacity);
      PackSplits(current + [f], frames[1..], capacity);
      var rest := Pack([f], frames[1..], capacity);
      assert ([current] + rest)[1..] == rest;
      assert current + ([f] + frames[1..]) == current + frames;
      assert current + [f] + frames[1..] == current + frames;
      assert (current + [f])[..|current|] == current;
    }
  }

  lemma {:induction false} PackFits(current: seq<Frame>, frames: seq<Frame>, capacity: nat)
    requires AllSendable(frames, capacity) && |FramesBytes(current)| <= capacity
    ensures Fitting(Pack(current, frames, capacity), capacity)
    ensures Greedy(Pack(current, frames, capacity), capacity)
    decreases |frames|
  {
    hide FramesBytes, FrameBytes;
    if frames != [] {
      var f := frames[0];
      assert f in frames && Sendable(f, capacity);
      FrameSize(f);
      FramesBytesAppend(current, f);
      OneFrame(f);
      if current == [] { FramesBytesEmpty([]); }
      if current != [] && |FramesBytes(current)| + |FrameBytes(f)| > capacity {
        PackFits([f], frames[1..], capacity);
        PackSplits([f], frames[1..], capacity);
        var rest := Pack([f], frames[1..], capacity);
        assert rest[0][0] == f;
        GreedyCons(current, rest, capacity);
      } else {
        PackFits(current + [f], frames[1..], capacity);
      }
    }
  }

  lemma GreedyCons(current: seq<Frame>, rest: seq<seq<Frame>>, capacity: nat)
    requires rest != [] && rest[0] != [] && Greedy(rest, capacity)
    requires |FramesBytes(current)| + |FrameBytes(rest[0][0])| > capacity
    ensures Greedy([current] + rest, capacity)
  {
    hide FramesBytes, FrameBytes;
    var groups := [current] + rest;
    forall i: nat | i < |groups| - 1
      ensures Full(groups, capacity, i)
    {
      assert groups[i + 1] == rest[i];
      if i > 0 {
        assert groups[i] == rest[i - 1];
        assert Full(rest, capacity, i - 1);
      }
    }
  }

  lemma OneFrame(f: Frame)
    ensures FramesBytes([f]) == FrameBytes(f)
  {
    assert FramesBytes([f]) == FrameBytes(f) + FramesBytes([f][1..]);
  }

  lemma FrameSize(f: Frame)
    ensures |FrameBytes(f)| == 4 + |f.body|
  {
  }

  /** What a receiver reads out of the records, one after the other. */
  function ParseAll(records: seq<Bytes>): Result<seq<Frame>, string> {
    if records == [] then Ok([])
    else
      var first :- Frames(records[0], Data);
      var rest :- ParseAll(records[1..]);
      Ok(first + rest)
  }

  lemma {:induction false} PrintedParses(groups: seq<seq<Frame>>, capacity: nat)
    requires forall g | g in groups :: AllSendable(g, capacity)
    ensures ParseAll(Printed(groups)) == Ok(Flat(groups))
  {
    hide Frames, FramesBytes;
    if groups != [] {
      assert groups[0] in groups && forall g | g in groups[1..] :: g in groups;
      assert AllSendable(groups[0], capacity);
      ParsersAgree(groups[0], Data);
      PrintedParses(groups[1..], capacity);
      assert Printed(groups)[1..] == Printed(groups[1..]);
    }
  }

  lemma {:induction false} PrintedAt(groups: seq<seq<Frame>>)
    ensures |Printed(groups)| == |groups|
    ensures forall i | 0 <= i < |groups| :: Printed(groups)[i] == FramesBytes(groups[i])
  {
    if groups != [] { PrintedAt(groups[1..]); }
  }

  lemma {:induction false} FlatHolds<T>(lists: seq<seq<T>>, list: seq<T>, x: T)
    requires list in lists && x in list
    ensures x in Flat(lists)
  {
    if list != lists[0] { FlatHolds(lists[1..], list, x); }
  }

  lemma {:induction false} AllFramesSendable(packets: seq<Bytes>, ids: seq<nat>, capacity: nat)
    requires |ids| == |packets|
    ensures AllFrames(packets, ids, capacity).Ok? <==>
            forall p | p in packets :: |p| < U16_LIMIT && (|p| + 4 <= capacity || capacity > FRAGMENT_OVERHEAD)
    ensures AllFrames(packets, ids, capacity).Ok? ==>
            AllSendable(AllFrames(packets, ids, capacity).value, capacity)
  {
    hide PacketFrames;
    if packets != [] {
      PacketSendable(packets[0], capacity, ids[0]);
      AllFramesSendable(packets[1..], ids[1..], capacity);
      assert forall p | p in packets :: p == packets[0] || p in packets[1..];
    }
  }

  /** Batching succeeds exactly when every packet can be sent; every record is then non-empty and within
      the capacity, and parsing the records gives the frames of the packets in order. */
  lemma BatchParses(packets: seq<Bytes>, ids: seq<nat>, capacity: nat)
    requires |ids| == |packets|
    ensures var r := Batched(packets, ids, capacity);
            && (r.Ok? <==> forall p | p in packets ::
                |p| < U16_LIMIT && (|p| + 4 <= capacity || capacity > FRAGMENT_OVERHEAD))
            && (r.Ok? ==>
                  && (forall record | record in r.value :: 0 < |record| <= capacity)
                  && AllFrames(packets, ids, capacity).Ok?
                  && ParseAll(r.value) == Ok(AllFrames(packets, ids, capacity).value))
  {
    hide AllFrames, FramesBytes, FrameBytes, Flat, Pack;
    AllFramesSendable(packets, ids, capacity);
    var r := AllFrames(packets, ids, capacity);
    if r.Ok? {
      assert |FramesBytes([])| == 0 by { FramesBytesEmpty([]); }
      PackSplits([], r.value, capacity);
      PackFits([], r.value, capacity);
      var groups := Pack([], r.value, capacity);
      assert [] + r.value == r.value;
      forall g | g in groups
        ensures AllSendable(g, capacity)
        ensures |FramesBytes(g)| > 0
      {
        FramesBytesEmpty(g);
        forall f | f in g ensures Sendable(f, capacity) { FlatHolds(groups, g, f); }
      }
      PrintedParses(groups, capacity);
      PrintedAt(groups);
    }
  }

  // ---- Delivery ----

  /** What the receiver hands on: whole packets at once, fragmented ones when their last fragment is there. */
  ghost function Deliver(a: Assemblies, frames: seq<Frame>, times: seq<nat>)
    : Result<(Assemblies, seq<Bytes>), FragmentError>
    requires |times| == |frames|
    decreases |frames|
  {
    if frames == [] then Ok((a, []))
    else
      var (a1, outcome) := DeliverOne(a, frames[0], times[0]);
      var packet :- outcome;
      var rest :- Deliver(a1, frames[1..], times[1..]);
      Ok((rest.0, (if packet.Some? then [packet.value] else []) + rest.1))
  }

  ghost function DeliverOne(a: Assemblies, f: Frame, now: nat): (Assemblies, Result<Option<Bytes>, FragmentError>) {
    if f.frameType == PACKET_FRAME then (a, Ok(Some(f.body)))
    else if f.frameType == FRAGMENT_FRAME then PushOne(a, f.body, now)
    else (a, Ok(None))
  }

  lemma {:induction false} DeliverSplits(a: Assemblies, f: seq<Frame>, t: seq<nat>, g: seq<Frame>, u: seq<nat>)
    requires |f| == |t| && |g| == |u| && Deliver(a, f, t).Ok?
    ensures var (a1, out) := Deliver(a, f, t).value;
            Deliver(a, f + g, t + u) ==
              match Deliver(a1, g, u) case Ok(rest) => Ok((rest.0, out + rest.1)) case Err(e) => Err(e)
    decreases |f|
  {
    hide DeliverOne;
    if f == [] {
      assert f + g == g && t + u == u;
      var later := Deliver(a, g, u);
      if later.Ok? { assert [] + later.value.1 == later.value.1; }
    } else {
      assert (f + g)[1..] == f[1..] + g && (t + u)[1..] == t[1..] + u;
      var (a0, r) := DeliverOne(a, f[0], t[0]);
      DeliverSplits(a0, f[1..], t[1..], g, u);
      var head := if r.value.Some? then [r.value.value] else [];
      var (a1, tail) := Deliver(a0, f[1..], t[1..]).value;
      var later := Deliver(a1, g, u);
      if later.Ok? { assert head + (tail + later.value.1) == head + tail + later.value.1; }
    }
  }

  ghost function Arrivals(first: nat, times: seq<nat>): seq<Arrival> {
    seq(|times|, k requires 0 <= k < |times| => Arrival(first + k, times[k]))
  }

  /** Delivering the fragment frames from the `first` on does what pushing the fragments does. */
  lemma {:induction false} DeliverPushes(a: Assemblies, packet: Bytes, cuts: seq<nat>, id: nat, first: nat,
                                         frames: seq<Frame>, times: seq<nat>)
    requires Flow(packet, cuts, id).Valid() && first < Count(cuts) && |frames| == |times| == Count(cuts) - first
    requires forall k | 0 <= k < |frames| :: frames[k] == FragmentFrame(packet, cuts, id, first + k)
    requires var results := PushAll(a, Flow(packet, cuts, id), Arrivals(first, times)).1;
             && |results| == |frames|
             && (forall k | 0 <= k < |results| - 1 :: results[k] == Ok(None))
             && results[|results| - 1] == Ok(Some(packet))
    ensures Deliver(a, frames, times) == Ok((PushAll(a, Flow(packet, cuts, id), Arrivals(first, times)).0, [packet]))
    decreases |frames|
  {
    hide PushOne, Encode, FragmentOf;
    var arrivals := Arrivals(first, times);
    var rest := Arrivals(first + 1, times[1..]);
    assert arrivals[1..] == rest;
    var (a1, r) := DeliverOne(a, frames[0], times[0]);
    var results := PushAll(a, Flow(packet, cuts, id), arrivals).1;
    assert results[1..] == PushAll(a1, Flow(packet, cuts, id), rest).1;
    if |frames| > 1 {
      assert r == results[0] == Ok(None);
      DeliverPushes(a1, packet, cuts, id, first + 1, frames[1..], times[1..]);
      assert [] + [packet] == [packet];
    } else {
      assert Deliver(a1, frames[1..], times[1..]) == Ok((a1, []));
      assert [packet] + [] == [packet];
    }
  }

  /** All frames of a packet arrive within 3 s of its first. */
  predicate Prompt(times: seq<nat>) {
    forall k | 0 <= k < |times| :: times[0] <= times[k] < times[0] + REASSEMBLY_TIMEOUT
  }

  lemma ArrivalsOnce(times: seq<nat>)
    requires times != []
    ensures var arrivals := Arrivals(0, times);
            && SeenIn(arrivals) == Indices(|times|)
            && arrivals[|arrivals| - 1].index !in SeenIn(arrivals[..|arrivals| - 1])
  {
    var arrivals := Arrivals(0, times);
    forall i: nat
      ensures i in SeenIn(arrivals) <==> i in Indices(|times|)
    {
      IndicesMembers(|times|, i);
      if i < |times| { assert arrivals[i] in arrivals && arrivals[i].index == i; }
    }
  }

  /** One packet, delivered promptly into an empty reassembler, comes out and leaves it empty. */
  lemma PacketDelivers(packet: Bytes, capacity: nat, id: nat, times: seq<nat>)
    requires id < U32_LIMIT && PacketFrames(packet, capacity, id).Ok?
    requires |times| == |PacketFrames(packet, capacity, id).value| && Prompt(times)
    ensures Deliver(map[], PacketFrames(packet, capacity, id).value, times) == Ok((map[], [packet]))
  {
    hide FragmentFrames, Prompt;
    var frames := PacketFrames(packet, capacity, id).value;
    if |packet| + 4 <= capacity {
      assert frames[1..] == [] && [packet] + [] == [packet];
    } else {
      FragmentsDeliver(packet, capacity - FRAGMENT_OVERHEAD, id, times);
    }
  }

  lemma FragmentsDeliver(packet: Bytes, chunk: nat, id: nat, times: seq<nat>)
    requires id < U32_LIMIT && chunk > 0 && 0 < |packet| < U16_LIMIT
    requires |times| == |FragmentFrames(packet, chunk, id)| && Prompt(times)
    ensures Deliver(map[], FragmentFrames(packet, chunk, id), times) == Ok((map[], [packet]))
  {
    hide PushAll, Cuts, Deliver, Inv, Memory, FragmentFrame, SeenIn, Indices;
    var cuts := ChunkCuts(|packet|, chunk);
    ChunksCut(|packet|, chunk);
    ChunkCountBounds(|packet|, chunk);
    EmptyMemory();
    ArrivalsOnce(times);
    assert Inv(map[]) by { ReachableInv([]); }
    var arrivals := Arrivals(0, times);
    AnyOrderReassembles(map[], Flow(packet, cuts, id), arrivals);
    DeliverPushes(map[], packet, cuts, id, 0, FragmentFrames(packet, chunk, id), times);
    assert PushAll(map[], Flow(packet, cuts, id), arrivals).0.Keys == {};
  }

  lemma {:induction false} FramesDeliver(packets: seq<Bytes>, ids: seq<nat>, capacity: nat, times: seq<seq<nat>>)
    requires |ids| == |packets| == |times| && AllFrames(packets, ids, capacity).Ok?
    requires forall k | 0 <= k < |packets| ::
               && ids[k] < U32_LIMIT && Prompt(times[k])
               && PacketFrames(packets[k], capacity, ids[k]).Ok?
               && |times[k]| == |PacketFrames(packets[k], capacity, ids[k]).value|
    ensures var frames := AllFrames(packets, ids, capacity).value;
            && |frames| == |Flat(times)|
            && Deliver(map[], frames, Flat(times)) == Ok((map[], packets))
    decreases |packets|
  {
    hide PacketFrames, Prompt, DeliverOne;
    if packets != [] {
      var first := PacketFrames(packets[0], capacity, ids[0]).value;
      PacketDelivers(packets[0], capacity, ids[0], times[0]);
      FramesDeliver(packets[1..], ids[1..], capacity, times[1..]);
      DeliverSplits(map[], first, times[0], AllFrames(packets[1..], ids[1..], capacity).value, Flat(times[1..]));
      assert [packets[0]] + packets[1..] == packets;
    }
  }

  /** The round trip: packets batched, the records parsed, and the frames delivered -- each packet's within
      3 s of its first -- come out as exactly the same packets in the same order, even if the random
      identifiers repeat. */
  lemma BatchDelivers(packets: seq<Bytes>, ids: seq<nat>, capacity: nat, times: seq<seq<nat>>)
    requires |ids| == |packets| == |times| && Batched(packets, ids, capacity).Ok?
    requires forall k | 0 <= k < |packets| ::
               && ids[k] < U32_LIMIT && Prompt(times[k])
               && PacketFrames(packets[k], capacity, ids[k]).Ok?
               && |times[k]| == |PacketFrames(packets[k], capacity, ids[k]).value|
    ensures var parsed := ParseAll(Batched(packets, ids, capacity).value);
            && parsed.Ok? && |parsed.value| == |Flat(times)|
            && Deliver(map[], parsed.value, Flat(times)) == Ok((map[], packets))
  {
    hide PacketFrames, AllFrames, ParseAll, Prompt, Deliver, Flat;
    BatchParses(packets, ids, capacity);
    FramesDeliver(packets, ids, capacity, times);
  }

  // ---- The loops ----

  /** One frame after the other, as bytes. */
  function Bodies(frames: seq<Frame>): seq<Bytes> {
    seq(|frames|, i requires 0 <= i < |frames| => FrameBytes(frames[i]))
  }

  method EncodePacket(packet: Bytes, capacity: nat, packetId: nat) returns (r: Result<seq<Bytes>, BatchError>)
    ensures r == match PacketFrames(packet, capacity, packetId) case Ok(frames) => Ok(Bodies(frames))
            case Err(e) => Err(e)
  {
    hide FrameBytes, Encode, FragmentFrames;
    if |packet| + 4 <= capacity {
      if |packet| >= U16_LIMIT {
        return Err(FrameTooLarge);
      }
      var only := [FrameBytes(Frame(PACKET_FRAME, 0, packet))];
      assert only == Bodies([Frame(PACKET_FRAME, 0, packet)]);
      return Ok(only);
    }
    if capacity < FRAGMENT_OVERHEAD {
      return Err(CapacityTooSmall);
    }
    var chunkSize := capacity - FRAGMENT_OVERHEAD;
    if |packet| >= U16_LIMIT {
      return Err(PacketTooLarge);
    }
    if chunkSize == 0 {
      return Err(NoRoomForData);
    }
    var frames: seq<Bytes> := [];
    var index: nat := 0;
    ghost var wanted := FragmentFrames(packet, chunkSize, packetId);
    while index * chunkSize < |packet|
      invariant index <= |wanted| && |frames| == index
      invariant forall k | 0 <= k < index :: frames[k] == FrameBytes(wanted[k])
      decreases |wanted| - index
    {
      ChunkAt(packet, chunkSize, packetId, index);
      var offset := index * chunkSize;
      var value := packet[offset..Min(offset + chunkSize, |packet|)];
      var body := Encode(Fragment(packetId, |packet|, offset, value));
      if |body| >= U16_LIMIT {
        assert false;
      }
      frames := frames + [FrameBytes(Frame(FRAGMENT_FRAME, 0, body))];
      index := index + 1;
    }
    ChunksEnd(packet, chunkSize, packetId, index);
    assert frames == Bodies(wanted);
    return Ok(frames);
  }

  /** The chunk at `index`, while there is one; its frame is small enough to encode. */
  lemma ChunkAt(packet: Bytes, chunk: nat, id: nat, index: nat)
    requires chunk > 0 && index * chunk < |packet| < U16_LIMIT && chunk + 10 < |packet|
    ensures var offset := index * chunk;
            var fragment := Fragment(id, |packet|, offset, packet[offset..Min(offset + chunk, |packet|)]);
            && index < |FragmentFrames(packet, chunk, id)|
            && FragmentFrames(packet, chunk, id)[index] == Frame(FRAGMENT_FRAME, 0, Encode(fragment))
            && |Encode(fragment)| < U16_LIMIT
  {
    ChunksCut(|packet|, chunk);
    ChunkCountBounds(|packet|, chunk);
    if index >= ChunkCount(|packet|, chunk) { Times(ChunkCount(|packet|, chunk), index, chunk); }
    Times(index, index + 1, chunk);
    var offset := index * chunk;
    FragmentLayout(Fragment(id, |packet|, offset, packet[offset..Min(offset + chunk, |packet|)]));
  }

  lemma ChunksEnd(packet: Bytes, chunk: nat, id: nat, index: nat)
    requires chunk > 0 && |packet| > 0 && index * chunk >= |packet| && index <= |FragmentFrames(packet, chunk, id)|
    ensures index == |FragmentFrames(packet, chunk, id)|
  {
    ChunkCountBounds(|packet|, chunk);
    if index < ChunkCount(|packet|, chunk) { Times(index, ChunkCount(|packet|, chunk) - 1, chunk); }
  }

  /** The result once `records` were closed and `current` is under way. */
  ghost function Finish(records: seq<Bytes>, current: seq<Frame>, rest: Result<seq<Frame>, BatchError>, capacity: nat)
    : Result<seq<Bytes>, BatchError>
  {
    match rest
    case Ok(frames) => Ok(records + Printed(Pack(current, frames, capacity)))
    case Err(e) => Err(e)
  }

  ghost function Behind(first: seq<Frame>, rest: Result<seq<Frame>, BatchError>): Result<seq<Frame>, BatchError> {
    match rest
    case Ok(frames) => Ok(first + frames)
    case Err(e) => Err(e)
  }

  /** One frame more: the record under way is closed first if the frame does not fit. */
  lemma FinishOneMore(records: seq<Bytes>, current: seq<Frame>, first: seq<Frame>, rest: Result<seq<Frame>, BatchError>,
                      capacity: nat)
    requires first != []
    ensures var full := current != [] && |FramesBytes(current)| + |FrameBytes(first[0])| > capacity;
            Finish(records, current, Behind(first, rest), capacity)
            == Finish(if full then records + [FramesBytes(current)] else records,
                      if full then [first[0]] else current + [first[0]], Behind(first[1..], rest), capacity)
  {
    hide FramesBytes, FrameBytes;
    if rest.Ok? {
      var frames := first + rest.value;
      assert frames[1..] == first[1..] + rest.value;
      var more := Pack([first[0]], frames[1..], capacity);
      assert Printed([current] + more) == [FramesBytes(current)] + Printed(more)
             by { assert ([current] + more)[1..] == more; }
      assert records + ([FramesBytes(current)] + Printed(more)) == records + [FramesBytes(current)] + Printed(more);
    }
  }

  lemma NextPacket(packets: seq<Bytes>, ids: seq<nat>, capacity: nat, i: nat)
    requires |ids| == |packets| && i < |packets|
    ensures AllFrames(packets[i..], ids[i..], capacity)
            == match PacketFrames(packets[i], capacity, ids[i])
               case Ok(frames) => Behind(frames, AllFrames(packets[i + 1..], ids[i + 1..], capacity))
               case Err(e) => Err(e)
  {
    hide PacketFrames;
    assert packets[i..][1..] == packets[i + 1..] && ids[i..][1..] == ids[i + 1..];
  }

  method BatchPackets(packets: seq<Bytes>, ids: seq<nat>, capacity: nat) returns (r: Result<seq<Bytes>, BatchError>)
    requires |ids| == |packets|
    ensures r == Batched(packets, ids, capacity)
  {
    hide PacketFrames, FramesBytes, FrameBytes, AllFrames, Finish, Behind;
    var records: seq<Bytes> := [];
    var plaintext: Bytes := [];
    ghost var current: seq<Frame> := [];
    FramesBytesEmpty([]);
    assert packets[0..] == packets && ids[0..] == ids;
    Finishing(packets, ids, capacity);
    for i := 0 to |packets|
      invariant plaintext == FramesBytes(current)
      invariant Batched(packets, ids, capacity)
                == Finish(records, current, AllFrames(packets[i..], ids[i..], capacity), capacity)
    {
      NextPacket(packets, ids, capacity, i);
      var encoded := EncodePacket(packets[i], capacity, ids[i]);
      if encoded.Err? {
        FinishFailed(records, current, encoded.error, capacity);
        return Err(encoded.error);
      }
      var frames := encoded.value;
      ghost var wanted := PacketFrames(packets[i], capacity, ids[i]).value;
      ghost var rest := AllFrames(packets[i + 1..], ids[i + 1..], capacity);
      assert wanted[0..] == wanted;
      for j := 0 to |frames|
        invariant plaintext == FramesBytes(current)
        invariant Batched(packets, ids, capacity) == Finish(records, current, Behind(wanted[j..], rest), capacity)
      {
        FinishOneMore(records, current, wanted[j..], rest, capacity);
        FramesBytesEmpty(current);
        FramesBytesAppend(current, wanted[j]);
        FramesBytesAppend([], wanted[j]);
        assert wanted[j..][1..] == wanted[j + 1..] && [] + [wanted[j]] == [wanted[j]];
        if plaintext != [] && |plaintext| + |frames[j]| > capacity {
          records := records + [plaintext];
          plaintext := [];
          current := [];
        }
        plaintext := plaintext + frames[j];
        current := current + [wanted[j]];
      }
      NothingBehind(rest);
      assert wanted[|frames|..] == [];
    }
    FramesBytesEmpty(current);
    assert packets[|packets|..] == [] && ids[|packets|..] == [];
    FinishLast(records, current, capacity);
    if plaintext != [] {
      records := records + [plaintext];
    }
    return Ok(records);
  }

  lemma NothingBehind(rest: Result<seq<Frame>, BatchError>)
    ensures Behind([], rest) == rest
  {
    if rest.Ok? { assert [] + rest.value == rest.value; }
  }

  lemma Finishing(packets: seq<Bytes>, ids: seq<nat>, capacity: nat)
    requires |ids| == |packets|
    ensures Batched(packets, ids, capacity) == Finish([], [], AllFrames(packets, ids, capacity), capacity)
  {
    hide AllFrames, Pack;
    var frames := AllFrames(packets, ids, capacity);
    if frames.Ok? {
      assert [] + Printed(Pack([], frames.value, capacity)) == Printed(Pack([], frames.value, capacity));
    }
  }

  lemma FinishFailed(records: seq<Bytes>, current: seq<Frame>, e: BatchError, capacity: nat)
    ensures Finish(records, current, Err(e), capacity) == Err(e)
  {
  }

  lemma FinishLast(records: seq<Bytes>, current: seq<Frame>, capacity: nat)
    ensures AllFrames([], [], capacity) == Ok([])
    ensures Finish(records, current, Ok([]), capacity)
            == Ok(if current == [] then records else records + [FramesBytes(current)])
  {
    hide FramesBytes;
    assert Printed([]) == [] && records + [] == records;
    if current != [] {
      PrintedAt([current]);
      assert Printed([current]) == [FramesBytes(current)];
    }
  }
}
