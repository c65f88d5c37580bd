/** An established session on the server: what comes from the client goes through the record layer, the
    reassembler, the packet test and the traffic limits to the network, and what comes from the network goes
    back through the limits and the batching. */
module ServerSession {
  import opened Prelude
  import opened Record
  import opened Rekey
  import opened ServerRecords
  import opened Reassembly
  import opened PacketBatch
  import Headers = Checksum
  import Limits = Shaping
  import Impl = RekeySession
  import Safety = RekeySafety

  const MTU: nat := 1280
  const PROBE_LIMIT: nat := 64
  const RECORD_CAPACITY: nat := MAX_CIPHERTEXT_LEN - 16

  datatype PacketError = NotIpv4 | WrongHeaderLength | WrongLength | WrongSource | WrongChecksum

  datatype SessionError =
    | RecordRefused(record: RecordError)
    | FragmentRefused(fragment: FragmentError)
    | PacketRefused(packet: PacketError)
    | PolicyRefused(limit: Limits.PolicyError)
    | BatchRefused(batch: BatchError)
    | DataFlags
    | Ipv6Disabled
    | KeepaliveNotEmpty
    | ProbeTooLarge
    | ProbeReplyTooLarge
    | LifetimeExpired

  /** The limits of a session have a rate above zero. */
  type Policy = p: Limits.Policy | p.bucket.rate > 0
    witness Limits.Policy(0, None, 0, Limits.Bucket(1, 0, 0, 0))

  datatype State = State(crypto: Session, fragments: Assemblies, policy: Policy)

  /** What leaves the session: a record to the client, or, after the delay the policy asked for, a packet to
      the network. */
  datatype Effect = Send(record: Sealed) | Deliver_(packet: Bytes)

  /** The state after a step, what left the session, the calls made on its record layer and its policy, and the
      error that ends the session, if any; what left before the error has left. */
  datatype Step = Step(
    state: State,
    effects: seq<Effect>,
    used: seq<Safety.Call>,
    asked: seq<Limits.Call>,
    error: Option<SessionError>
  )

  /** What the clock shows when a frame's fragment is pushed and when its packet is shaped. */
  datatype Reading = Reading(pushed: nat, shaped: nat)

  // ---- Packets ----

  function CheckIpv4(packet: Bytes, source: Bytes): Result<(), PacketError> {
    if |packet| < 20 || packet[0] / 16 != 4 then Err(NotIpv4)
    else
      var headerLen := packet[0] % 16 * 4;
      if headerLen < 20 || headerLen > |packet| then Err(WrongHeaderLength)
      else if FromBigEndian(packet[2..4]) != |packet| || |packet| > MTU then Err(WrongLength)
      else if packet[12..16] != source then Err(WrongSource)
      else if Headers.Checksum(Headers.WordSum(packet[..headerLen])) != 0 then Err(WrongChecksum)
      else Ok(())
  }

  /** Section 3.1 of RFC 791, for packets from one address: version 4, a header of at least five words inside
      the packet that is a multiple of 65535 as a number, and the length of the packet. */
  predicate WellFormed(packet: Bytes, source: Bytes) {
    && 20 <= |packet| <= 1280
    && packet[0] / 16 == 4
    && packet[0] % 16 >= 5
    && packet[0] % 16 * 4 <= |packet|
    && FromBigEndian(packet[2..4]) == |packet|
    && packet[12..16] == source
    && FromBigEndian(packet[..packet[0] % 16 * 4]) % 65535 == 0
  }

  lemma AcceptedIffWellFormed(packet: Bytes, source: Bytes)
    ensures CheckIpv4(packet, source).Ok? <==> WellFormed(packet, source)
  {
    hide FromBigEndian;
    if 20 <= |packet| && packet[0] / 16 == 4 && packet[0] % 16 >= 5 && packet[0] % 16 * 4 <= |packet| {
      var header := packet[..packet[0] % 16 * 4];
      Headers.ZeroChecksumIff(header);
      NotZero(header);
    }
  }

  lemma {:induction false} NotZero(b: Bytes)
    requires b != [] && b[0] > 0
    ensures FromBigEndian(b) > 0
    decreases |b|
  {
    if |b| > 1 { NotZero(b[..|b| - 1]); } else { assert b[..0] == []; }
  }

  // ---- One data frame ----

  function Stay(s: State): Step {
    Step(s, [], [], [], None)
  }

  function Stop(s: State, e: SessionError): Step {
    Step(s, [], [], [], Some(e))
  }

  /** The policy is asked, its delay waited out, and the packet handed on. */
  function Shape(s: State, packet: Bytes, now: nat): Step
  {
    var (policy, r) := Limits.ReservePolicy(s.policy, |packet|, now);
    var asked := [Limits.Call(|packet|, now)];
    match r
    case Ok(_) => Step(s.(policy := policy), [Deliver_(packet)], [], asked, None)
    case Err(e) => Step(s.(policy := policy), [], [], asked, Some(PolicyRefused(e)))
  }

  function Pass(s: State, source: Bytes, packet: Bytes, now: nat): Step
  {
    match CheckIpv4(packet, source)
    case Err(e) => Stop(s, PacketRefused(e))
    case Ok(_) => Shape(s, packet, now)
  }

  function SealOne(s: State, plaintext: Bytes): Step {
    var (crypto, r) := SealData(s.crypto, plaintext, false);
    var used := [Safety.CallSealData(plaintext, false)];
    match r
    case Ok(record) => Step(s.(crypto := crypto), [Send(record)], used, [], None)
    case Err(e) => Step(s.(crypto := crypto), [], used, [], Some(RecordRefused(Crypto(e))))
  }

  /** A fragment frame goes to the reassembler whatever its flags; all other frames carry none. */
  ghost function DataFrame(s: State, source: Bytes, f: Frame, clock: Reading): Step
  {
    if f.frameType == FRAGMENT_FRAME then
      var (fragments, r) := PushOne(s.fragments, f.body, clock.pushed);
      var s1 := s.(fragments := fragments);
      if r.Err? then Stop(s1, FragmentRefused(r.error))
      else if r.value.None? then Stay(s1)
      else Pass(s1, source, r.value.value, clock.shaped)
    else if f.flags != 0 then Stop(s, DataFlags)
    else if f.frameType == PACKET_FRAME then Pass(s, source, f.body, clock.shaped)
    else if f.frameType == 0x02 then Stop(s, Ipv6Disabled)
    else if f.frameType == 0x04 then
      if f.body != [] then Stop(s, KeepaliveNotEmpty) else SealOne(s, FrameBytes(Frame(0x04, 0, [])))
    else if f.frameType == 0x05 then
      if |f.body| > PROBE_LIMIT then Stop(s, ProbeTooLarge) else SealOne(s, FrameBytes(Frame(0x06, 0, f.body)))
    else if f.frameType == 0x06 && |f.body| > PROBE_LIMIT then Stop(s, ProbeReplyTooLarge)
    else Stay(s)
  }

  /** One step and then another, unless the first ended the session. */
  function Join(first: Step, second: Step): Step {
    Step(second.state, first.effects + second.effects, first.used + second.used, first.asked + second.asked,
         second.error)
  }

  /** The frames of a data record, the last one last; `clock(i)` is read while frame `i` is handled. */
  ghost function DataFrames(s: State, source: Bytes, frames: seq<Frame>, clock: nat -> Reading): Step
    decreases |frames|
  {
    if frames == [] then Stay(s)
    else
      var n := |frames| - 1;
      var before := DataFrames(s, source, frames[..n], clock);
      if before.error.Some? then before else Join(before, DataFrame(before.state, source, frames[n], clock(n)))
  }

  // ---- One control frame ----

  function ControlFrame(p: Primitives, s: State, record: Sealed, position: Position, f: Frame, env: Env, now: nat)
    : (Step, bool)
  {
    var (crypto, r) := HandleFrame(p, s.crypto, record, position, f, env, now);
    var used := FrameCall(record, position, f, env, now);
    match r
    case Err(e) => (Step(s.(crypto := crypto), [], used, [], Some(RecordRefused(e))), false)
    case Ok(reply) => (Step(s.(crypto := crypto), Sends(reply.records), used, [], None), reply.close)
  }

  /** The call a control frame makes on the record layer. */
  function FrameCall(record: Sealed, position: Position, f: Frame, env: Env, now: nat): seq<Safety.Call> {
    if f.frameType == 0x02 && |f.body| < U16_LIMIT
      then [Safety.CallSealControl(FrameBytes(Frame(0x03, 0, f.body)), false)]
    else if f.flags != 0 then []
    else if f.frameType == 0x05 && position == Current then [Safety.CallUpdateInit(record, f.body, now)]
    else if f.frameType == 0x07 && position == Pending_ then [Safety.CallUpdateCommit(record, f.body, now)]
    else if f.frameType == 0x09 && position == Current then
      [Safety.CallFullInit(record, f.body, env.clientKey, env.serverKey, env.ephemeral, now)]
    else if f.frameType == 0x0B && position == Pending_ then [Safety.CallFullConfirm(record, f.body, now)]
    else []
  }

  function Sends(records: seq<Sealed>): seq<Effect> {
    seq(|records|, i requires 0 <= i < |records| => Send(records[i]))
  }

  /** The second part says whether the client closed the session; no frame after that is looked at. */
  function ControlFrames(p: Primitives, s: State, record: Sealed, position: Position, frames: seq<Frame>, env: Env,
                         now: nat)
    : (Step, bool)
    decreases |frames|
  {
    if frames == [] then (Stay(s), false)
    else
      var n := |frames| - 1;
      var (before, closed) := ControlFrames(p, s, record, position, frames[..n], env, now);
      if before.error.Some? || closed then (before, closed)
      else
        var (step, closes) := ControlFrame(p, before.state, record, position, frames[n], env, now);
        (Join(before, step), closes)
  }

  // ---- The events of a session ----

  /** What the clock shows during one record, and the randomness a full rekey would use. */
  datatype Context = Context(env: Env, arrived: nat, now: nat, clock: nat -> Reading)

  ghost function Inbound(p: Primitives, s: State, source: Bytes, record: Sealed, context: Context): (Step, bool) {
    var (crypto, r) := Open(s.crypto, record, context.arrived);
    var unsealed := Step(s.(crypto := crypto), [], [Safety.CallOpen(record, context.arrived)], [], None);
    if r.Err? then (unsealed.(error := Some(RecordRefused(Crypto(r.error)))), false)
    else
      var (rest, closed) := Contents(p, unsealed.state, source, record, r.value, context);
      (Join(unsealed, rest), closed)
  }

  /** What is inside an unsealed record. */
  ghost function Contents(p: Primitives, s: State, source: Bytes, record: Sealed, unsealed: OpenedRecord,
                          context: Context): (Step, bool) {
    var frames := Frames(unsealed.plaintext, unsealed.header.kind);
    if frames.Err? then (Stop(s, RecordRefused(BadFrames)), false)
    else if unsealed.header.kind == Data then (DataFrames(s, source, frames.value, context.clock), false)
    else if |frames.value| != 1 && exists f | f in frames.value :: SecurityCritical(f) then
      (Stop(s, RecordRefused(NotSingleFrame)), false)
    else ControlFrames(p, s, record, unsealed.position, frames.value, context.env, context.now)
  }

  function Size(packets: seq<Bytes>): nat {
    if packets == [] then 0 else Size(packets[..|packets| - 1]) + |packets[|packets| - 1]|
  }

  /** The policy is asked for every octet. */
  lemma {:induction false} SizeIsLength(packets: seq<Bytes>)
    ensures Size(packets) == |Concat(packets)|
  {
    if packets != [] {
      var n := |packets| - 1;
      SizeIsLength(packets[..n]);
      assert packets == packets[..n] + [packets[n]];
      ConcatSplits(packets[..n], [packets[n]]);
      assert Concat([packets[n]]) == packets[n] + Concat([packets[n]][1..]);
    }
  }

  function SealAll(s: State, plaintexts: seq<Bytes>): Step
    decreases |plaintexts|
  {
    if plaintexts == [] then Stay(s)
    else
      var n := |plaintexts| - 1;
      var before := SealAll(s, plaintexts[..n]);
      if before.error.Some? then before else Join(before, SealOne(before.state, plaintexts[n]))
  }

  /** Packets from the network; the policy is asked for all of them at once. `ids` are the random identifiers. */
  function Outbound(s: State, packets: seq<Bytes>, ids: seq<nat>, now: nat): Step
    requires |ids| == |packets|
  {
    var (policy, r) := Limits.ReservePolicy(s.policy, Size(packets), now);
    var asked := Step(s.(policy := policy), [], [], [Limits.Call(Size(packets), now)], None);
    if r.Err? then asked.(error := Some(PolicyRefused(r.error)))
    else
      match Batched(packets, ids, RECORD_CAPACITY)
      case Err(e) => asked.(error := Some(BatchRefused(e)))
      case Ok(plaintexts) => Join(asked, SealAll(asked.state, plaintexts))
  }

  function Poll(p: Primitives, s: State, now: nat): Step {
    var (crypto, r) := RequestUpdateIfDue(p, s.crypto, now);
    var used := [Safety.CallRequestUpdate(now)];
    match r
    case Err(e) => Step(s.(crypto := crypto), [], used, [], Some(RecordRefused(Crypto(e))))
    case Ok(None) => Step(s.(crypto := crypto), [], used, [], None)
    case Ok(Some(record)) => Step(s.(crypto := crypto), [Send(record)], used, [], None)
  }

  /** What a new carrier answers to the challenge, if anything in time. */
  datatype PathAnswer = PathAnswer(record: Sealed, arrived: nat)

  /** The random values of one challenge. */
  datatype Path = Path(migrationSecret: Bytes, carrierId: Bytes, challenge: Bytes)

  /** The body of the one path response a record consists of. */
  function ResponseBody(unsealed: OpenedRecord): Option<Bytes> {
    if unsealed.header.kind != Control || unsealed.position != Current then None
    else
      match Frames(unsealed.plaintext, Control)
      case Err(_) => None
      case Ok(frames) =>
        if |frames| != 1 || frames[0].frameType != 0x0D || frames[0].flags != 0 then None else Some(frames[0].body)
  }

  /** The answer goes through the record layer like any record; the second part says whether it is accepted. */
  function TakeAnswer(p: Primitives, s: State, carrierId: Bytes, expected: Digest, answer: PathAnswer): (Step, bool) {
    var (crypto, r) := Open(s.crypto, answer.record, answer.arrived);
    var unsealed := Step(s.(crypto := crypto), [], [Safety.CallOpen(answer.record, answer.arrived)], [], None);
    var body := if r.Ok? then ResponseBody(r.value) else None;
    if body.None? then (unsealed, false)
    else
      var (after, accepted) := AcceptPathResponse(p, crypto, answer.record, body.value, carrierId, expected);
      var used := [Safety.CallPathResponse(answer.record, body.value, carrierId, expected)];
      (Join(unsealed, Step(s.(crypto := after), [], used, [], None)), accepted.Ok?)
  }

  /** A carrier that wants to take over is challenged; whatever goes wrong, the session goes on with the old one.
      The second part says whether it takes over. */
  function Migrate(p: Primitives, s: State, path: Path, answer: Option<PathAnswer>): (Step, bool) {
    var (crypto, r) := PathChallenge(p, s.crypto, path.migrationSecret, path.carrierId, path.challenge);
    var used := [Safety.CallPathChallenge(path.migrationSecret, path.carrierId, path.challenge)];
    var s1 := s.(crypto := crypto);
    if r.Err? then (Step(s1, [], used, [], None), false)
    else
      var challenged := Step(s1, [Send(r.value.0)], used, [], None);
      if answer.None? then (challenged, false)
      else
        var (taken, accepted) := TakeAnswer(p, s1, path.carrierId, r.value.1, answer.value);
        (Join(challenged, taken), accepted)
  }

  // ---- What every step keeps ----

  /** Bytes handed on to the network. */
  function Delivered(effects: seq<Effect>): nat {
    if effects == [] then 0
    else
      var last := effects[|effects| - 1];
      Delivered(effects[..|effects| - 1]) + (if last.Deliver_? then |last.packet| else 0)
  }

  lemma {:induction false} DeliveredSplits(a: seq<Effect>, b: seq<Effect>)
    ensures Delivered(a + b) == Delivered(a) + Delivered(b)
    decreases |b|
  {
    if b == [] {
      assert a + b == a;
    } else {
      assert (a + b)[..|a + b| - 1] == a + b[..|b| - 1];
      DeliveredSplits(a, b[..|b| - 1]);
    }
  }

  lemma {:induction false} RunSplits(p: Primitives, s: Session, a: seq<Safety.Call>, b: seq<Safety.Call>)
    ensures Safety.Run(p, s, a + b).0 == Safety.Run(p, Safety.Run(p, s, a).0, b).0
    decreases |b|
  {
    hide Safety.Apply;
    if b == [] {
      assert a + b == a;
    } else {
      assert (a + b)[..|a + b| - 1] == a + b[..|b| - 1];
      RunSplits(p, s, a, b[..|b| - 1]);
    }
  }

  lemma OneCall(p: Primitives, s: Session, call: Safety.Call)
    ensures Safety.Run(p, s, [call]).0 == Safety.Apply(p, s, call).0 && Safety.Run(p, s, []).0 == s
  {
    hide Safety.Apply;
    assert [call][..0] == [];
  }

  ghost predicate Ready(s: State) {
    Inv(s.fragments) && s.policy.Valid()
  }

  ghost predicate OnlyWellFormed(effects: seq<Effect>, source: Bytes) {
    forall i | 0 <= i < |effects| && effects[i].Deliver_? :: WellFormed(effects[i].packet, source)
  }

  /** The record layer and the policy are where the calls made on them lead; what was handed on is well-formed
      and charged for, together with `outbound` bytes of the other direction. */
  ghost predicate Accounted(p: Primitives, s: State, source: Bytes, r: Step, outbound: nat) {
    && r.state.crypto == Safety.Run(p, s.crypto, r.used).0
    && r.state.policy == Limits.After(s.policy, r.asked)
    && Ready(r.state)
    && OnlyWellFormed(r.effects, source)
    && r.state.policy.transferred == s.policy.transferred + Delivered(r.effects) + outbound
  }

  lemma JoinAccounted(p: Primitives, s: State, source: Bytes, first: Step, second: Step, a: nat, b: nat)
    requires Accounted(p, s, source, first, a) && Accounted(p, first.state, source, second, b)
    ensures Accounted(p, s, source, Join(first, second), a + b)
  {
    hide WellFormed, Inv;
    RunSplits(p, s.crypto, first.used, second.used);
    Limits.AfterSplits(s.policy, first.asked, second.asked);
    DeliveredSplits(first.effects, second.effects);
  }

  /** A step that only calls the record layer. */
  lemma CryptoAccounted(p: Primitives, s: State, source: Bytes, r: Step)
    requires Ready(s) && r.state == s.(crypto := r.state.crypto) && r.asked == []
    requires r.state.crypto == Safety.Run(p, s.crypto, r.used).0
    requires forall i | 0 <= i < |r.effects| :: r.effects[i].Send?
    ensures Accounted(p, s, source, r, 0)
  {
    hide Inv, WellFormed;
    NothingDelivered(r.effects);
  }

  lemma {:induction false} NothingDelivered(effects: seq<Effect>)
    requires forall i | 0 <= i < |effects| :: effects[i].Send?
    ensures Delivered(effects) == 0
  {
    if effects != [] { NothingDelivered(effects[..|effects| - 1]); }
  }

  lemma StayAccounted(p: Primitives, s: State, source: Bytes, e: SessionError)
    requires Ready(s)
    ensures Accounted(p, s, source, Stay(s), 0) && Accounted(p, s, source, Stop(s, e), 0)
  {
    hide Inv;
    OneCall(p, s.crypto, Safety.CallRequestUpdate(0));
    CryptoAccounted(p, s, source, Stay(s));
    CryptoAccounted(p, s, source, Stop(s, e));
  }

  lemma PassAccounted(p: Primitives, s: State, source: Bytes, packet: Bytes, now: nat)
    requires Ready(s)
    ensures Accounted(p, s, source, Pass(s, source, packet, now), 0)
  {
    hide Inv, CheckIpv4, WellFormed, Limits.ReservePolicy;
    AcceptedIffWellFormed(packet, source);
    StayAccounted(p, s, source, DataFlags);
    if CheckIpv4(packet, source).Err? {
      StayAccounted(p, s, source, PacketRefused(CheckIpv4(packet, source).error));
    } else {
      OneRequest(s.policy, |packet|, now);
      assert [Deliver_(packet)][..0] == [];
    }
  }

  lemma OneRequest(policy: Policy, bytes: nat, now: nat)
    requires policy.Valid()
    ensures var (after, r) := Limits.ReservePolicy(policy, bytes, now);
            && Limits.After(policy, [Limits.Call(bytes, now)]) == after && after.Valid()
            && after.transferred == policy.transferred + (if r.Ok? then bytes else 0)
  {
    hide Limits.ReservePolicy;
    Limits.CallKeepsValid(policy, bytes, now);
    assert [Limits.Call(bytes, now)][..0] == [];
  }

  lemma SealOneAccounted(p: Primitives, s: State, source: Bytes, plaintext: Bytes)
    requires Ready(s)
    ensures Accounted(p, s, source, SealOne(s, plaintext), 0)
  {
    hide Inv, SealData;
    OneCall(p, s.crypto, Safety.CallSealData(plaintext, false));
    CryptoAccounted(p, s, source, SealOne(s, plaintext));
  }

  lemma DataFrameAccounted(p: Primitives, s: State, source: Bytes, f: Frame, clock: Reading)
    requires Ready(s)
    ensures Accounted(p, s, source, DataFrame(s, source, f, clock), 0)
  {
    hide Inv, PushOne, Pass, SealOne, Accounted, FrameBytes;
    var r := DataFrame(s, source, f, clock);
    if r.error.Some? { StayAccounted(p, s, source, r.error.value); } else { StayAccounted(p, s, source, DataFlags); }
    if f.frameType == FRAGMENT_FRAME {
      PushKeepsInv(s.fragments, f.body, clock.pushed);
      var (fragments, pushed) := PushOne(s.fragments, f.body, clock.pushed);
      var s1 := s.(fragments := fragments);
      PushedAccounted(p, s, s1, source, r);
      if pushed.Err? {
        StayAccounted(p, s1, source, FragmentRefused(pushed.error));
      } else if pushed.value.None? {
        StayAccounted(p, s1, source, DataFlags);
      } else {
        PassAccounted(p, s1, source, pushed.value.value, clock.shaped);
      }
    } else {
      PassAccounted(p, s, source, f.body, clock.shaped);
      SealOneAccounted(p, s, source, FrameBytes(Frame(0x04, 0, [])));
      SealOneAccounted(p, s, source, FrameBytes(Frame(0x06, 0, f.body)));
    }
  }

  lemma PushedAccounted(p: Primitives, s: State, s1: State, source: Bytes, r: Step)
    requires s1 == s.(fragments := s1.fragments)
    ensures Accounted(p, s, source, r, 0) == Accounted(p, s1, source, r, 0)
  {
    hide Inv, WellFormed;
  }

  lemma {:induction false} DataFramesAccounted(p: Primitives, s: State, source: Bytes, frames: seq<Frame>,
                                               clock: nat -> Reading)
    requires Ready(s)
    ensures Accounted(p, s, source, DataFrames(s, source, frames, clock), 0)
    decreases |frames|
  {
    hide DataFrame, Join;
    if frames == [] {
      StayAccounted(p, s, source, DataFlags);
    } else {
      var n := |frames| - 1;
      DataFramesAccounted(p, s, source, frames[..n], clock);
      var before := DataFrames(s, source, frames[..n], clock);
      if before.error.None? {
        DataFrameAccounted(p, before.state, source, frames[n], clock(n));
        JoinAccounted(p, s, source, before, DataFrame(before.state, source, frames[n], clock(n)), 0, 0);
      }
    }
  }

  lemma ControlFrameAccounted(p: Primitives, s: State, source: Bytes, record: Sealed, position: Position, f: Frame,
                              env: Env, now: nat)
    requires Ready(s)
    ensures Accounted(p, s, source, ControlFrame(p, s, record, position, f, env, now).0, 0)
  {
    hide Inv, SealControl, AcceptUpdateInit, AcceptUpdateCommit, AcceptFullRekeyInit, AcceptFullRekeyConfirm,
         FrameBytes;
    var used := FrameCall(record, position, f, env, now);
    OneCall(p, s.crypto, if used != [] then used[0] else Safety.CallRequestUpdate(0));
    assert used != [] ==> used == [used[0]];
    CryptoAccounted(p, s, source, ControlFrame(p, s, record, position, f, env, now).0);
  }

  lemma {:induction false} ControlFramesAccounted(p: Primitives, s: State, source: Bytes, record: Sealed,
                                                  position: Position, frames: seq<Frame>, env: Env, now: nat)
    requires Ready(s)
    ensures Accounted(p, s, source, ControlFrames(p, s, record, position, frames, env, now).0, 0)
    decreases |frames|
  {
    hide ControlFrame, Join;
    if frames == [] {
      StayAccounted(p, s, source, DataFlags);
    } else {
      var n := |frames| - 1;
      ControlFramesAccounted(p, s, source, record, position, frames[..n], env, now);
      var (before, closed) := ControlFrames(p, s, record, position, frames[..n], env, now);
      if before.error.None? && !closed {
        ControlFrameAccounted(p, before.state, source, record, position, frames[n], env, now);
        JoinAccounted(p, s, source, before, ControlFrame(p, before.state, record, position, frames[n], env,
                                                         now).0, 0, 0);
      }
    }
  }

  lemma InboundAccounted(p: Primitives, s: State, source: Bytes, record: Sealed, context: Context)
    requires Ready(s)
    ensures Accounted(p, s, source, Inbound(p, s, source, record, context).0, 0)
  {
    hide Open, Accounted, Join, DataFrames, ControlFrames, Frames, SecurityCritical, Inv;
    var (crypto, r) := Open(s.crypto, record, context.arrived);
    OneCall(p, s.crypto, Safety.CallOpen(record, context.arrived));
    var unsealed := Step(s.(crypto := crypto), [], [Safety.CallOpen(record, context.arrived)], [], None);
    CryptoAccounted(p, s, source, unsealed);
    if r.Err? {
      CryptoAccounted(p, s, source, unsealed.(error := Some(RecordRefused(Crypto(r.error)))));
    } else {
      var s1 := unsealed.state;
      StayAccounted(p, s1, source, RecordRefused(BadFrames));
      StayAccounted(p, s1, source, RecordRefused(NotSingleFrame));
      var frames := Frames(r.value.plaintext, r.value.header.kind);
      if frames.Ok? {
        DataFramesAccounted(p, s1, source, frames.value, context.clock);
        ControlFramesAccounted(p, s1, source, record, r.value.position, frames.value, context.env, context.now);
      }
      JoinAccounted(p, s, source, unsealed, Contents(p, s1, source, record, r.value, context).0, 0, 0);
    }
  }

  lemma {:induction false} SealAllAccounted(p: Primitives, s: State, source: Bytes, plaintexts: seq<Bytes>)
    requires Ready(s)
    ensures Accounted(p, s, source, SealAll(s, plaintexts), 0)
    decreases |plaintexts|
  {
    hide SealOne, Join;
    if plaintexts == [] {
      StayAccounted(p, s, source, DataFlags);
    } else {
      var n := |plaintexts| - 1;
      SealAllAccounted(p, s, source, plaintexts[..n]);
      var before := SealAll(s, plaintexts[..n]);
      if before.error.None? {
        SealOneAccounted(p, before.state, source, plaintexts[n]);
        JoinAccounted(p, s, source, before, SealOne(before.state, plaintexts[n]), 0, 0);
      }
    }
  }

  function Charged(s: State, packets: seq<Bytes>, now: nat): nat {
    if Limits.ReservePolicy(s.policy, Size(packets), now).1.Ok? then Size(packets) else 0
  }

  lemma OutboundAccounted(p: Primitives, s: State, source: Bytes, packets: seq<Bytes>, ids: seq<nat>, now: nat)
    requires Ready(s) && |ids| == |packets|
    ensures Accounted(p, s, source, Outbound(s, packets, ids, now), Charged(s, packets, now))
  {
    hide Inv, Limits.ReservePolicy, Batched, SealAll, Size, WellFormed, Join;
    var (policy, r) := Limits.ReservePolicy(s.policy, Size(packets), now);
    OneRequest(s.policy, Size(packets), now);
    OneCall(p, s.crypto, Safety.CallRequestUpdate(0));
    var asked := Step(s.(policy := policy), [], [], [Limits.Call(Size(packets), now)], None);
    assert Accounted(p, s, source, asked, Charged(s, packets, now));
    if r.Ok? && Batched(packets, ids, RECORD_CAPACITY).Ok? {
      var plaintexts := Batched(packets, ids, RECORD_CAPACITY).value;
      SealAllAccounted(p, asked.state, source, plaintexts);
      JoinAccounted(p, s, source, asked, SealAll(asked.state, plaintexts), Charged(s, packets, now), 0);
    }
  }

  lemma PollAccounted(p: Primitives, s: State, source: Bytes, now: nat)
    requires Ready(s)
    ensures Accounted(p, s, source, Poll(p, s, now), 0)
  {
    hide Inv, RequestUpdateIfDue;
    OneCall(p, s.crypto, Safety.CallRequestUpdate(now));
    CryptoAccounted(p, s, source, Poll(p, s, now));
  }

  lemma TakeAnswerAccounted(p: Primitives, s: State, source: Bytes, carrierId: Bytes, expected: Digest,
                            answer: PathAnswer)
    requires Ready(s)
    ensures Accounted(p, s, source, TakeAnswer(p, s, carrierId, expected, answer).0, 0)
  {
    hide Inv, Open, AcceptPathResponse, ResponseBody, Accounted, Join;
    var (crypto, r) := Open(s.crypto, answer.record, answer.arrived);
    var call := Safety.CallOpen(answer.record, answer.arrived);
    var unsealed := Step(s.(crypto := crypto), [], [call], [], None);
    OneCall(p, s.crypto, call);
    CryptoAccounted(p, s, source, unsealed);
    var body := if r.Ok? then ResponseBody(r.value) else None;
    if body.Some? {
      var last := Safety.CallPathResponse(answer.record, body.value, carrierId, expected);
      var after := AcceptPathResponse(p, crypto, answer.record, body.value, carrierId, expected).0;
      var second := Step(s.(crypto := after), [], [last], [], None);
      OneCall(p, crypto, last);
      CryptoAccounted(p, unsealed.state, source, second);
      JoinAccounted(p, s, source, unsealed, second, 0, 0);
    }
  }

  lemma MigrateAccounted(p: Primitives, s: State, source: Bytes, path: Path, answer: Option<PathAnswer>)
    requires Ready(s)
    ensures Accounted(p, s, source, Migrate(p, s, path, answer).0, 0)
  {
    hide Inv, PathChallenge, TakeAnswer, Accounted, Join;
    var (crypto, r) := PathChallenge(p, s.crypto, path.migrationSecret, path.carrierId, path.challenge);
    var call := Safety.CallPathChallenge(path.migrationSecret, path.carrierId, path.challenge);
    var s1 := s.(crypto := crypto);
    OneCall(p, s.crypto, call);
    var challenged := Step(s1, if r.Ok? then [Send(r.value.0)] else [], [call], [], None);
    CryptoAccounted(p, s, source, challenged);
    if r.Ok? && answer.Some? {
      TakeAnswerAccounted(p, s1, source, path.carrierId, r.value.1, answer.value);
      JoinAccounted(p, s, source, challenged, TakeAnswer(p, s1, path.carrierId, r.value.1, answer.value).0, 0, 0);
    }
  }

  /** Only the right answer lets a carrier take over: a record under the client's control key of the current
      epoch, with a number never opened before, that is one path response with the carrier's identifier and the
      tag over the transcript after this challenge. */
  lemma MigrationNeedsAnswer(p: Primitives, s: State, path: Path, answer: Option<PathAnswer>)
    requires Safety.Shape(p, s.crypto) && |path.carrierId| == 16 && Migrate(p, s, path, answer).1
    ensures var (crypto, r) := PathChallenge(p, s.crypto, path.migrationSecret, path.carrierId, path.challenge);
            var tag := p.hmac(path.migrationSecret, Ascii("RekaSerdoba/1 path response") + s.crypto.id + path.carrierId
                                                    + path.challenge + crypto.transcript);
            && r.Ok? && crypto.transcript == TranscriptNext(p, s.crypto.transcript, r.value.0)
            && answer.Some?
            && var record := answer.value.record;
               && record.header.kind == Control && record.header.epoch == s.crypto.current.epoch
               && record.key == s.crypto.current.c2sControl.key
               && record.header.number !in s.crypto.current.c2sControl.window.seen
               && Frames(record.plaintext, Control) == Ok([Frame(0x0D, 0, path.carrierId + tag)])
  {
    hide Open, Frames, Safety.Shape, TranscriptNext, PathChallenge, AcceptPathResponse, Ascii;
    var record := answer.value.record;
    Safety.PathCallsAreQuiet(p, s.crypto, path.migrationSecret, path.carrierId, path.challenge, record, [],
                             s.crypto.transcript);
    var (crypto, r) := PathChallenge(p, s.crypto, path.migrationSecret, path.carrierId, path.challenge);
    OpensAtCurrent(p, crypto, record, answer.value.arrived);
    var (after, unsealed) := Open(crypto, record, answer.value.arrived);
    var body := ResponseBody(unsealed.value).value;
    AcceptDependsOn(p, after, crypto, record, body, path.carrierId, r.value.1);
    Safety.PathResponseIff(p, s.crypto, path.migrationSecret, path.carrierId, path.challenge, record, body);
    OneFrameOf(unsealed.value, body);
  }

  lemma OneFrameOf(unsealed: OpenedRecord, body: Bytes)
    requires ResponseBody(unsealed) == Some(body)
    ensures unsealed.header.kind == Control && unsealed.position == Current
    ensures Frames(unsealed.plaintext, Control) == Ok([Frame(0x0D, 0, body)])
  {
    hide Frames;
    var frames := Frames(unsealed.plaintext, Control).value;
    assert frames == [frames[0]];
  }

  lemma OpensAtCurrent(p: Primitives, s: Session, record: Sealed, now: nat)
    requires Safety.Shape(p, s)
    ensures var r := Open(s, record, now).1;
            r.Ok? && r.value.position == Current && r.value.header.kind == Control ==>
              && record.header.kind == Control && record.header.epoch == s.current.epoch
              && record.key == s.current.c2sControl.key
              && record.header.number !in s.current.c2sControl.window.seen
              && r.value.plaintext == record.plaintext
  {
    hide OpenFrom;
    if record.header.Valid() && record.header.epoch == s.current.epoch {
      Safety.OpenFromEffect(p, s.id, s.current, record);
    }
  }

  /** Whether a response is accepted depends on nothing but its body. */
  lemma AcceptDependsOn(p: Primitives, a: Session, b: Session, record: Sealed, body: Bytes, carrierId: Bytes,
                        expected: Digest)
    ensures AcceptPathResponse(p, a, record, body, carrierId, expected).1.Ok?
            <==> AcceptPathResponse(p, b, record, body, carrierId, expected).1.Ok?
  {
  }

  // ---- When packets from the network are sent ----

  lemma SealOneIff(s: State, plaintext: Bytes)
    requires |plaintext| + TAG_LEN <= MAX_CIPHERTEXT_LEN
    ensures var step := SealOne(s, plaintext);
            && (step.error.None? <==>
                  && s.crypto.dataRecords + 1 < U64_LIMIT && s.crypto.plaintextBytes + |plaintext| < U64_LIMIT
                  && s.crypto.current.s2cData.next < MAX_RECORDS_PER_EPOCH)
            && (step.error.None? ==>
                  && step.state.crypto.dataRecords == s.crypto.dataRecords + 1
                  && step.state.crypto.plaintextBytes == s.crypto.plaintextBytes + |plaintext|
                  && step.state.crypto.current.s2cData.next == s.crypto.current.s2cData.next + 1)
  {
  }

  /** The counters and the numbers last for these plaintexts. */
  predicate RoomFor(s: Session, plaintexts: seq<Bytes>) {
    && s.dataRecords + |plaintexts| < U64_LIMIT && s.plaintextBytes + Size(plaintexts) < U64_LIMIT
    && s.current.s2cData.next + |plaintexts| <= MAX_RECORDS_PER_EPOCH
  }

  lemma {:induction false} SealAllIff(s: State, plaintexts: seq<Bytes>)
    requires forall i | 0 <= i < |plaintexts| :: |plaintexts[i]| + TAG_LEN <= MAX_CIPHERTEXT_LEN
    ensures var step := SealAll(s, plaintexts);
            && (step.error.None? <==> plaintexts == [] || RoomFor(s.crypto, plaintexts))
            && (step.error.None? ==>
                  && step.state.crypto.dataRecords == s.crypto.dataRecords + |plaintexts|
                  && step.state.crypto.plaintextBytes == s.crypto.plaintextBytes + Size(plaintexts)
                  && step.state.crypto.current.s2cData.next == s.crypto.current.s2cData.next + |plaintexts|)
    decreases |plaintexts|
  {
    hide SealOne;
    if plaintexts != [] {
      var n := |plaintexts| - 1;
      SealAllIff(s, plaintexts[..n]);
      SealOneIff(SealAll(s, plaintexts[..n]).state, plaintexts[n]);
    }
  }

  /** Packets from the network are sent exactly when the policy grants their bytes, each is shorter than 65536, and the
      counters and numbers of the session last for the records they make. */
  lemma OutboundIff(s: State, packets: seq<Bytes>, ids: seq<nat>, now: nat)
    requires |ids| == |packets|
    ensures Outbound(s, packets, ids, now).error.None? <==>
              && Limits.ReservePolicy(s.policy, |Concat(packets)|, now).1.Ok?
              && (forall i | 0 <= i < |packets| :: |packets[i]| < U16_LIMIT)
              && (Plaintexts(packets, ids) == [] || RoomFor(s.crypto, Plaintexts(packets, ids)))
  {
    hide Limits.ReservePolicy, AllFrames, Pack, SealAll, Size, FramesBytes, RoomFor;
    SizeIsLength(packets);
    AllFramesSendable(packets, ids, RECORD_CAPACITY);
    if AllFrames(packets, ids, RECORD_CAPACITY).Ok? {
      var frames := AllFrames(packets, ids, RECORD_CAPACITY).value;
      assert |FramesBytes([])| == 0 by { FramesBytesEmpty([]); }
      PackFits([], frames, RECORD_CAPACITY);
      PrintedFits(Pack([], frames, RECORD_CAPACITY), RECORD_CAPACITY);
      RateKept(s.policy, Size(packets), now);
      var (policy, _) := Limits.ReservePolicy(s.policy, Size(packets), now);
      SealAllIff(s.(policy := policy), Plaintexts(packets, ids));
    }
  }

  /** The record plaintexts the packets make. */
  function Plaintexts(packets: seq<Bytes>, ids: seq<nat>): seq<Bytes>
    requires |ids| == |packets|
  {
    match Batched(packets, ids, RECORD_CAPACITY)
    case Ok(plaintexts) => plaintexts
    case Err(_) => []
  }

  lemma RateKept(policy: Policy, bytes: nat, now: nat)
    ensures Limits.ReservePolicy(policy, bytes, now).0.bucket.rate > 0
  {
  }

  // ---- Whole sessions ----

  /** What the loop of a session waits for; records come from the carrier in use or from one that is draining. */
  datatype Occurrence =
    | FromClient(record: Sealed, context: Context)
    | FromNetwork(packets: seq<Bytes>, ids: seq<nat>, now: nat)
    | Timer(now: nat)
    | Migration(path: Path, answer: Option<PathAnswer>)
    | Deadline
    | CarrierClosed

  /** Every packet has its random identifier. */
  type Event = e: Occurrence | e.FromNetwork? ==> |e.ids| == |e.packets| witness Timer(0)

  ghost function React(p: Primitives, s: State, source: Bytes, e: Event): (Step, bool) {
    match e
    case FromClient(record, context) => Inbound(p, s, source, record, context)
    case FromNetwork(packets, ids, now) => (Outbound(s, packets, ids, now), false)
    case Timer(now) => (Poll(p, s, now), false)
    case Migration(path, answer) => (Migrate(p, s, path, answer).0, false)
    case Deadline => (Stop(s, LifetimeExpired), false)
    case CarrierClosed => (Stay(s), true)
  }

  /** A session up to its end: an error, a CLOSE of the client, or the end of its carrier. */
  ghost function Run(p: Primitives, s: State, source: Bytes, events: seq<Event>): (Step, bool)
    decreases |events|
  {
    if events == [] then (Stay(s), false)
    else
      var n := |events| - 1;
      var (before, closed) := Run(p, s, source, events[..n]);
      if before.error.Some? || closed then (before, closed)
      else
        var (step, closes) := React(p, before.state, source, events[n]);
        (Join(before, step), closes)
  }

  /** Bytes from the network that the limits let through to the client. */
  ghost function Taken(p: Primitives, s: State, source: Bytes, events: seq<Event>): nat
    decreases |events|
  {
    if events == [] then 0
    else
      var n := |events| - 1;
      var (before, closed) := Run(p, s, source, events[..n]);
      Taken(p, s, source, events[..n]) +
      (if before.error.None? && !closed && events[n].FromNetwork?
       then Charged(before.state, events[n].packets, events[n].now) else 0)
  }

  lemma {:induction false} RunAccounted(p: Primitives, s: State, source: Bytes, events: seq<Event>)
    requires Ready(s)
    ensures Accounted(p, s, source, Run(p, s, source, events).0, Taken(p, s, source, events))
    decreases |events|
  {
    hide Join, Inbound, Outbound, Poll, Charged, Inv, OnlyWellFormed, Migrate;
    if events == [] {
      StayAccounted(p, s, source, DataFlags);
    } else {
      var n := |events| - 1;
      RunAccounted(p, s, source, events[..n]);
      var (before, closed) := Run(p, s, source, events[..n]);
      if before.error.None? && !closed {
        EventAccounted(p, before.state, source, events[n]);
        JoinAccounted(p, s, source, before, React(p, before.state, source, events[n]).0,
                      Taken(p, s, source, events[..n]),
                      if events[n].FromNetwork? then Charged(before.state, events[n].packets, events[n].now) else 0);
      }
    }
  }

  lemma EventAccounted(p: Primitives, s: State, source: Bytes, e: Event)
    requires Ready(s)
    ensures Accounted(p, s, source, React(p, s, source, e).0, if e.FromNetwork?
                      then Charged(s, e.packets, e.now) else 0)
  {
    hide Accounted, Inbound, Outbound, Poll, Charged, Migrate;
    match e
    case FromClient(record, context) => InboundAccounted(p, s, source, record, context);
    case FromNetwork(packets, ids, now) => OutboundAccounted(p, s, source, packets, ids, now);
    case Timer(now) => PollAccounted(p, s, source, now);
    case Migration(path, answer) => MigrateAccounted(p, s, source, path, answer);
    case Deadline => StayAccounted(p, s, source, LifetimeExpired);
    case CarrierClosed => StayAccounted(p, s, source, LifetimeExpired);
  }

  ghost function Established(p: Primitives, id: Bytes, secret: Digest, handshakeTranscript: Digest, policy: Policy,
                             now: nat): State {
    State(New(p, id, secret, handshakeTranscript, now), map[], policy)
  }

  /** Over every session, whatever the client, the network and the clock do. Only well-formed packets from the
      client's own address are handed on. The transferred total is, to the byte, what was handed on and what
      was taken from the network, and stays within the quota. If the delays are waited out, both directions
      together stay within a full bucket and the rate over the duration. And the record layer is where some
      sequence of calls on a new one leads, so all that is proved of those holds of it. */
  lemma SessionIsMetered(p: Primitives, id: Bytes, secret: Digest, handshakeTranscript: Digest, source: Bytes,
                         lifetime: nat, bandwidth: nat, quota: nat, created: nat, events: seq<Event>)
    requires Limits.NewPolicy(lifetime, bandwidth, quota, created).Ok?
    ensures var policy: Policy := Metered(lifetime, bandwidth, quota, created);
            var s := Established(p, id, secret, handshakeTranscript, policy, created);
            var r := Run(p, s, source, events).0;
            var total := Delivered(r.effects) + Taken(p, s, source, events);
            && OnlyWellFormed(r.effects, source)
            && r.state.policy.transferred == total
            && (quota != 0 ==> total <= quota)
            && (r.asked != [] && created <= r.asked[0].now && Limits.Waited(policy, r.asked) ==>
                  total * Limits.NANOS <= policy.bucket.capacity * Limits.NANOS
                                          + bandwidth * (Limits.Release(policy, r.asked,
                                            |r.asked| - 1) - r.asked[0].now))
            && r.state.crypto == Safety.Run(p, New(p, id, secret, handshakeTranscript, created), r.used).0
            && Safety.Shape(p, r.state.crypto)
            && Inv(r.state.fragments)
  {
    hide Run, Taken, OnlyWellFormed, Inv, Limits.NewPolicy, Limits.After, Limits.Release, Limits.Granted,
         Limits.Waited, New, Safety.Shape, Safety.LogInv, Safety.Run;
    var policy: Policy := Metered(lifetime, bandwidth, quota, created);
    var s := Established(p, id, secret, handshakeTranscript, policy, created);
    Limits.NewPolicyLimits(lifetime, bandwidth, quota, created);
    assert Inv(map[]) by { ReachableInv([]); }
    RunAccounted(p, s, source, events);
    var r := Run(p, s, source, events).0;
    Safety.ReachableShape(p, id, secret, handshakeTranscript, created, r.used);
    Limits.RunKeepsValid(policy, r.asked);
    Limits.KeepsLimits(policy, r.asked);
    if r.asked != [] && created <= r.asked[0].now && Limits.Waited(policy, r.asked) {
      Limits.RateBound(policy, r.asked);
    }
  }

  function Metered(lifetime: nat, bandwidth: nat, quota: nat, created: nat): (policy: Policy)
    requires Limits.NewPolicy(lifetime, bandwidth, quota, created).Ok?
    ensures policy.transferred == 0
  {
    Limits.NewPolicy(lifetime, bandwidth, quota, created).value
  }

  // ---- Delivery ----

  function Packets(effects: seq<Effect>): seq<Bytes> {
    if effects == [] then []
    else
      var last := effects[|effects| - 1];
      Packets(effects[..|effects| - 1]) + (if last.Deliver_? then [last.packet] else [])
  }

  function Pushed(clock: nat -> Reading, n: nat): seq<nat> {
    seq<nat>(n, i requires 0 <= i < n => clock(i).pushed)
  }

  /** A data record that does not end the session hands on exactly what reassembly makes of its frames. */
  lemma {:induction false} DataFramesDeliver(s: State, source: Bytes, frames: seq<Frame>, clock: nat -> Reading)
    requires DataFrames(s, source, frames, clock).error.None?
    ensures var r := DataFrames(s, source, frames, clock);
            Deliver(s.fragments, frames, Pushed(clock, |frames|)) == Ok((r.state.fragments, Packets(r.effects)))
    decreases |frames|
  {
    hide DataFrame, DeliverOne;
    if frames != [] {
      var n := |frames| - 1;
      var before := DataFrames(s, source, frames[..n], clock);
      DataFramesDeliver(s, source, frames[..n], clock);
      var step := DataFrame(before.state, source, frames[n], clock(n));
      DataFrameDelivers(before.state, source, frames[n], clock(n));
      DeliverSplits(s.fragments, frames[..n], Pushed(clock, n), [frames[n]], [clock(n).pushed]);
      assert frames == frames[..n] + [frames[n]];
      assert Pushed(clock, |frames|) == Pushed(clock, n) + [clock(n).pushed];
      PacketsSplit(before.effects, step.effects);
    }
  }

  lemma {:induction false} PacketsSplit(a: seq<Effect>, b: seq<Effect>)
    ensures Packets(a + b) == Packets(a) + Packets(b)
    decreases |b|
  {
    if b == [] {
      assert a + b == a;
    } else {
      assert (a + b)[..|a + b| - 1] == a + b[..|b| - 1];
      PacketsSplit(a, b[..|b| - 1]);
    }
  }

  lemma DataFrameDelivers(s: State, source: Bytes, f: Frame, clock: Reading)
    requires DataFrame(s, source, f, clock).error.None?
    ensures var r := DataFrame(s, source, f, clock);
            Deliver(s.fragments, [f], [clock.pushed]) == Ok((r.state.fragments, Packets(r.effects)))
  {
    hide DataFrame, DeliverOne, Packets;
    HandsOn(s, source, f, clock);
    var (a1, outcome) := DeliverOne(s.fragments, f, clock.pushed);
    assert Deliver(a1, [f][1..], [clock.pushed][1..]) == Ok((a1, []));
    var packets := if outcome.value.Some? then [outcome.value.value] else [];
    assert packets + [] == packets;
  }

  lemma HandsOn(s: State, source: Bytes, f: Frame, clock: Reading)
    requires DataFrame(s, source, f, clock).error.None?
    ensures var r := DataFrame(s, source, f, clock);
            var (a1, outcome) := DeliverOne(s.fragments, f, clock.pushed);
            && outcome.Ok? && r.state.fragments == a1
            && Packets(r.effects) == if outcome.value.Some? then [outcome.value.value] else []
  {
    hide PushOne, Pass, SealOne, Packets, FrameBytes;
    var r := DataFrame(s, source, f, clock);
    PacketOf(r.effects);
    PassHandsOn(s, source, f.body, clock.shaped);
    SealHandsOn(s, FrameBytes(Frame(0x04, 0, [])));
    SealHandsOn(s, FrameBytes(Frame(0x06, 0, f.body)));
    var (fragments, pushed) := PushOne(s.fragments, f.body, clock.pushed);
    if pushed.Ok? && pushed.value.Some? {
      PassHandsOn(s.(fragments := fragments), source, pushed.value.value, clock.shaped);
    }
  }

  lemma PassHandsOn(s: State, source: Bytes, packet: Bytes, now: nat)
    ensures var r := Pass(s, source, packet, now);
            r.state.fragments == s.fragments && (r.error.None? ==> r.effects == [Deliver_(packet)])
  {
    hide CheckIpv4, Limits.ReservePolicy;
  }

  lemma SealHandsOn(s: State, plaintext: Bytes)
    ensures var r := SealOne(s, plaintext);
            r.state.fragments == s.fragments && Packets(r.effects) == []
  {
    hide SealData;
    PacketOf(SealOne(s, plaintext).effects);
  }

  lemma PacketOf(effects: seq<Effect>)
    ensures effects == [] ==> Packets(effects) == []
    ensures |effects| == 1 ==> Packets(effects) == if effects[0].Deliver_? then [effects[0].packet] else []
  {
    if |effects| == 1 { assert effects[..0] == [] && Packets(effects[..0]) == []; }
  }

  // ---- The record layer's view ----

  lemma {:induction false} HandleOneMore(p: Primitives, s: Session, record: Sealed, position: Position,
                                         frames: seq<Frame>, f: Frame, env: Env, now: nat)
    ensures var (s1, r) := HandleFrames(p, s, record, position, frames, env, now);
            HandleFrames(p, s, record, position, frames + [f], env, now)
            == if r.Err? || r.value.close then (s1, r)
               else Prepend(r.value.records, HandleFrame(p, s1, record, position, f, env, now))
    decreases |frames|
  {
    hide HandleFrame;
    if frames == [] {
      assert frames + [f] == [f] && [f][1..] == [];
      var (s1, r) := HandleFrame(p, s, record, position, f, env, now);
      if r.Ok? { assert [] + r.value.records == r.value.records + [] == r.value.records; }
    } else {
      assert (frames + [f])[1..] == frames[1..] + [f];
      var (s1, r) := HandleFrame(p, s, record, position, frames[0], env, now);
      if r.Ok? && !r.value.close {
        HandleOneMore(p, s1, record, position, frames[1..], f, env, now);
        var (s2, rest) := HandleFrames(p, s1, record, position, frames[1..], env, now);
        if rest.Ok? && !rest.value.close {
          var last := HandleFrame(p, s2, record, position, f, env, now).1;
          if last.Ok? {
            assert r.value.records + (rest.value.records + last.value.records)
                   == r.value.records + rest.value.records + last.value.records;
          }
        }
      }
    }
  }

  /** The same control frames, as the record layer sees them and as the session does. */
  lemma {:induction false} ControlFramesAreHandled(p: Primitives, s: State, record: Sealed, position: Position,
                                                   frames: seq<Frame>, env: Env, now: nat)
    ensures var (step, closed) := ControlFrames(p, s, record, position, frames, env, now);
            var (crypto, r) := HandleFrames(p, s.crypto, record, position, frames, env, now);
            && step.state == s.(crypto := crypto)
            && (r.Ok? ==> step.error.None? && step.effects == Sends(r.value.records) && closed == r.value.close)
            && (r.Err? ==> step.error == Some(RecordRefused(r.error)))
    decreases |frames|
  {
    hide HandleFrame, FrameCall;
    if frames != [] {
      var n := |frames| - 1;
      ControlFramesAreHandled(p, s, record, position, frames[..n], env, now);
      HandleOneMore(p, s.crypto, record, position, frames[..n], frames[n], env, now);
      assert frames[..n] + [frames[n]] == frames;
    }
  }

  /** On control records the session does exactly what `ProcessRecord` says, the function the joint runs of
      client and server are about. */
  lemma InboundIsProcessed(p: Primitives, s: State, source: Bytes, record: Sealed, context: Context)
    requires record.header.kind == Control
    ensures var (step, closed) := Inbound(p, s, source, record, context);
            var (crypto, r) := ProcessRecord(p, s.crypto, record, context.env, context.arrived, context.now);
            && step.state == s.(crypto := crypto)
            && (r.Ok? ==> step.error.None? && step.effects == Sends(r.value.records) && closed == r.value.close)
            && (r.Err? ==> step.error == Some(RecordRefused(r.error)))
  {
    hide OpenFrom, CountData, ExpirePrevious, HandleFrames, ControlFrames, Frames;
    var (crypto, r) := Open(s.crypto, record, context.arrived);
    if r.Ok? && Frames(r.value.plaintext, Control).Ok? {
      ControlFramesAreHandled(p, s.(crypto := crypto), record, r.value.position,
                              Frames(r.value.plaintext, Control).value, context.env, context.now);
    }
  }

  // ---- The object ----

  class EstablishedSession {
    const source: Bytes
    const crypto: Impl.RekeySession
    const fragments: FragmentReassembler
    const policy: Limits.SessionPolicy

    ghost predicate Valid()
      reads crypto, crypto.Repr, fragments, policy, policy.bucket
    {
      && crypto.Valid() && fragments.Valid() && policy.State().Valid()
      && {fragments, policy, policy.bucket} !! crypto.Repr
    }

    ghost function Model(): State
      requires Valid()
      reads crypto, crypto.Repr, fragments, policy, policy.bucket
    {
      State(crypto.Model(), fragments.assemblies, policy.State())
    }

    constructor (crypto: Impl.RekeySession, source: Bytes, policy: Limits.SessionPolicy)
      requires crypto.Valid() && policy.State().Valid() && {policy, policy.bucket} !! crypto.Repr
      ensures Valid() && fresh(fragments) && this.crypto == crypto && this.source == source && this.policy == policy
      ensures Model() == State(crypto.Model(), map[], policy.State())
    {
      this.source := source;
      this.crypto := crypto;
      this.policy := policy;
      fragments := new FragmentReassembler();
    }

    static method CheckPacket(packet: Bytes, source: Bytes) returns (r: Result<(), PacketError>)
      ensures r == CheckIpv4(packet, source)
    {
      hide Headers.WordSum, Headers.Checksum;
      if |packet| < 20 || packet[0] / 16 != 4 {
        return Err(NotIpv4);
      }
      var first: nat := packet[0];
      var headerLen := first % 16 * 4;
      if headerLen < 20 || headerLen > |packet| {
        return Err(WrongHeaderLength);
      }
      var totalLen := FromBigEndian(packet[2..4]);
      if totalLen != |packet| || totalLen > MTU {
        return Err(WrongLength);
      }
      if packet[12..16] != source {
        return Err(WrongSource);
      }
      var checksum := Headers.Ipv4Checksum(packet[..headerLen]);
      if checksum != 0 {
        return Err(WrongChecksum);
      }
      return Ok(());
    }

    method PassPacket(packet: Bytes, now: nat) returns (effects: seq<Effect>, error: Option<SessionError>)
      requires Valid()
      modifies policy, policy.bucket
      ensures Valid()
      ensures var r := Pass(old(Model()), source, packet, now);
              Model() == r.state && effects == r.effects && error == r.error
    {
      hide CheckIpv4, Limits.ReservePolicy, Impl.RekeySession.Valid, Impl.RekeySession.Model, Inv;
      var check := CheckPacket(packet, source);
      if check.Err? {
        return [], Some(PacketRefused(check.error));
      }
      var delay := policy.ReserveBytes(|packet|, now);
      if delay.Err? {
        return [], Some(PolicyRefused(delay.error));
      }
      return [Deliver_(packet)], None;
    }

    method SendOne(plaintext: Bytes) returns (effects: seq<Effect>, error: Option<SessionError>)
      requires Valid()
      modifies crypto.Repr
      ensures Valid() && fresh(crypto.Repr - old(crypto.Repr))
      ensures var r := SealOne(old(Model()), plaintext);
              Model() == r.state && effects == r.effects && error == r.error
    {
      hide SealData, Impl.RekeySession.Valid, Impl.RekeySession.Model, Inv;
      var record := SealThere(plaintext);
      if record.Err? {
        return [], Some(RecordRefused(Crypto(record.error)));
      }
      return [Send(record.value)], None;
    }

    /** Sealing touches the record layer's own objects only. */
    method SealThere(plaintext: Bytes) returns (r: Result<Sealed, Error>)
      requires crypto.Valid()
      modifies crypto.Repr
      ensures crypto.Valid() && crypto.Repr == old(crypto.Repr)
      ensures (crypto.Model(), r) == SealData(old(crypto.Model()), plaintext, false)
    {
      hide SealData;
      r := crypto.SealData(plaintext, false);
    }

    method TakeDataFrame(f: Frame, clock: Reading) returns (effects: seq<Effect>, error: Option<SessionError>)
      requires Valid()
      modifies crypto.Repr, fragments, policy, policy.bucket
      ensures Valid() && fresh(crypto.Repr - old(crypto.Repr))
      ensures var r := DataFrame(old(Model()), source, f, clock);
              Model() == r.state && effects == r.effects && error == r.error
    {
      hide PushOne, Pass, SealOne, Impl.RekeySession.Valid, Impl.RekeySession.Model, Inv;
      if f.frameType == FRAGMENT_FRAME {
        var packet := fragments.Push(f.body, clock.pushed);
        if packet.Err? {
          return [], Some(FragmentRefused(packet.error));
        }
        if packet.value.Some? {
          effects, error := PassPacket(packet.value.value, clock.shaped);
          return;
        }
        return [], None;
      }
      if f.flags != 0 {
        return [], Some(DataFlags);
      }
      if f.frameType == PACKET_FRAME {
        effects, error := PassPacket(f.body, clock.shaped);
      } else if f.frameType == 0x02 {
        return [], Some(Ipv6Disabled);
      } else if f.frameType == 0x04 {
        if f.body != [] {
          return [], Some(KeepaliveNotEmpty);
        }
        effects, error := SendOne(FrameBytes(Frame(0x04, 0, [])));
      } else if f.frameType == 0x05 {
        if |f.body| > PROBE_LIMIT {
          return [], Some(ProbeTooLarge);
        }
        effects, error := SendOne(FrameBytes(Frame(0x06, 0, f.body)));
      } else if f.frameType == 0x06 && |f.body| > PROBE_LIMIT {
        return [], Some(ProbeReplyTooLarge);
      } else {
        return [], None;
      }
    }

    method TakeDataFrames(frames: seq<Frame>, clock: nat -> Reading)
      returns (effects: seq<Effect>, error: Option<SessionError>)
      requires Valid()
      modifies crypto.Repr, fragments, policy, policy.bucket
      ensures Valid() && fresh(crypto.Repr - old(crypto.Repr))
      ensures var r := DataFrames(old(Model()), source, frames, clock);
              Model() == r.state && effects == r.effects && error == r.error
    {
      hide DataFrame, Impl.RekeySession.Valid, Impl.RekeySession.Model, Valid, Model;
      effects, error := [], None;
      ghost var start := Model();
      for i := 0 to |frames|
        invariant Valid() && fresh(crypto.Repr - old(crypto.Repr)) && error.None?
        invariant var r := DataFrames(start, source, frames[..i], clock);
                  Model() == r.state && effects == r.effects && r.error.None?
      {
        assert frames[..i + 1][..i] == frames[..i] && frames[..i + 1][i] == frames[i];
        var more;
        more, error := TakeDataFrame(frames[i], clock(i));
        effects := effects + more;
        if error.Some? {
          DataFramesStop(start, source, frames, clock, i + 1);
          return;
        }
      }
      assert frames[..|frames|] == frames;
    }

    method TakeControlFrames(record: Sealed, position: Position, frames: seq<Frame>, env: Env, now: nat)
      returns (effects: seq<Effect>, error: Option<SessionError>, closed: bool)
      requires Valid()
      modifies crypto.Repr, fragments, policy, policy.bucket
      ensures Valid() && fresh(crypto.Repr - old(crypto.Repr))
      ensures var (r, closes) := ControlFrames(crypto.p, old(Model()), record, position, frames, env, now);
              Model() == r.state && effects == r.effects && error == r.error && closed == closes
    {
      hide HandleFrame, Impl.RekeySession.Valid, Impl.RekeySession.Model, Inv;
      effects, error, closed := [], None, false;
      ghost var start := Model();
      for i := 0 to |frames|
        invariant Valid() && fresh(crypto.Repr - old(crypto.Repr)) && error.None? && !closed
        invariant var (r, closes) := ControlFrames(crypto.p, start, record, position, frames[..i], env, now);
                  Model() == r.state && effects == r.effects && r.error.None? && !closes
      {
        assert frames[..i + 1][..i] == frames[..i] && frames[..i + 1][i] == frames[i];
        var one := Handle(crypto, record, position, frames[i], env, now);
        if one.Err? {
          error := Some(RecordRefused(one.error));
          ControlFramesStop(crypto.p, start, record, position, frames, env, now, i + 1);
          return;
        }
        effects := effects + Sends(one.value.records);
        if one.value.close {
          closed := true;
          ControlFramesStop(crypto.p, start, record, position, frames, env, now, i + 1);
          return;
        }
      }
      assert frames[..|frames|] == frames;
    }

    /** One record from the client. */
    method Process(record: Sealed, context: Context)
      returns (effects: seq<Effect>, error: Option<SessionError>, closed: bool)
      requires Valid()
      modifies crypto.Repr, fragments, policy, policy.bucket
      ensures Valid() && fresh(crypto.Repr - old(crypto.Repr))
      ensures var (r, closes) := Inbound(crypto.p, old(Model()), source, record, context);
              Model() == r.state && effects == r.effects && error == r.error && closed == closes
    {
      hide Open, Frames, DataFrames, ControlFrames, Impl.RekeySession.Valid, Impl.RekeySession.Model, Inv;
      var unsealed := crypto.Open(record, context.arrived);
      if unsealed.Err? {
        return [], Some(RecordRefused(Crypto(unsealed.error))), false;
      }
      var kind := unsealed.value.header.kind;
      var parsed := ParseFrames(unsealed.value.plaintext, kind);
      if parsed.Err? {
        return [], Some(RecordRefused(BadFrames)), false;
      }
      var frames := parsed.value;
      if kind == Data {
        effects, error := TakeDataFrames(frames, context.clock);
        return effects, error, false;
      }
      if |frames| != 1 && exists f | f in frames :: SecurityCritical(f) {
        return [], Some(RecordRefused(NotSingleFrame)), false;
      }
      effects, error, closed := TakeControlFrames(record, unsealed.value.position, frames, context.env, context.now);
    }

    /** Packets from the network. */
    method SendPackets(packets: seq<Bytes>, ids: seq<nat>, now: nat)
      returns (effects: seq<Effect>, error: Option<SessionError>)
      requires |ids| == |packets|
      requires Valid()
      modifies crypto.Repr, fragments, policy, policy.bucket
      ensures Valid() && fresh(crypto.Repr - old(crypto.Repr))
      ensures var r := Outbound(old(Model()), packets, ids, now);
              Model() == r.state && effects == r.effects && error == r.error
    {
      hide SealOne, Batched, Size, Limits.ReservePolicy, Impl.RekeySession.Valid, Impl.RekeySession.Model, Inv;
      var bytes := TotalSize(packets);
      var delay := policy.ReserveBytes(bytes, now);
      if delay.Err? {
        return [], Some(PolicyRefused(delay.error));
      }
      var plaintexts := BatchPackets(packets, ids, RECORD_CAPACITY);
      if plaintexts.Err? {
        return [], Some(BatchRefused(plaintexts.error));
      }
      effects, error := SendAll(plaintexts.value);
    }

    static method TotalSize(packets: seq<Bytes>) returns (bytes: nat)
      ensures bytes == Size(packets)
    {
      bytes := 0;
      for i := 0 to |packets|
        invariant bytes == Size(packets[..i])
      {
        assert packets[..i + 1][..i] == packets[..i];
        bytes := bytes + |packets[i]|;
      }
      assert packets[..|packets|] == packets;
    }

    method SendAll(plaintexts: seq<Bytes>) returns (effects: seq<Effect>, error: Option<SessionError>)
      requires Valid()
      modifies crypto.Repr, fragments, policy, policy.bucket
      ensures Valid() && fresh(crypto.Repr - old(crypto.Repr))
      ensures var r := SealAll(old(Model()), plaintexts);
              Model() == r.state && effects == r.effects && error == r.error
    {
      hide SealOne, Impl.RekeySession.Valid, Impl.RekeySession.Model, Valid, Model;
      effects, error := [], None;
      ghost var start := Model();
      for i := 0 to |plaintexts|
        invariant Valid() && fresh(crypto.Repr - old(crypto.Repr)) && error.None?
        invariant var r := SealAll(start, plaintexts[..i]);
                  Model() == r.state && effects == r.effects && r.error.None?
      {
        assert plaintexts[..i + 1][..i] == plaintexts[..i] && plaintexts[..i + 1][i] == plaintexts[i];
        var more;
        more, error := SendOne(plaintexts[i]);
        effects := effects + more;
        if error.Some? {
          SealAllStop(start, plaintexts, i + 1);
          return;
        }
      }
      assert plaintexts[..|plaintexts|] == plaintexts;
    }

    method Check(now: nat) returns (effects: seq<Effect>, error: Option<SessionError>)
      requires Valid()
      modifies crypto.Repr, fragments, policy, policy.bucket
      ensures Valid() && fresh(crypto.Repr - old(crypto.Repr))
      ensures var r := Poll(crypto.p, old(Model()), now);
              Model() == r.state && effects == r.effects && error == r.error
    {
      hide RequestUpdateIfDue, Impl.RekeySession.Valid, Impl.RekeySession.Model, Inv;
      var request := Ask(now);
      if request.Err? {
        return [], Some(RecordRefused(Crypto(request.error)));
      }
      return if request.value.Some? then [Send(request.value.value)] else [], None;
    }

    /** A carrier that wants to take over. */
    method TryMigration(path: Path, answer: Option<PathAnswer>) returns (effects: seq<Effect>, accepted: bool)
      requires Valid()
      modifies crypto.Repr, fragments, policy, policy.bucket
      ensures Valid() && fresh(crypto.Repr - old(crypto.Repr))
      ensures var (r, takesOver) := Migrate(crypto.p, old(Model()), path, answer);
              Model() == r.state && effects == r.effects && r.error == None && accepted == takesOver
    {
      hide PathChallenge, TakeAnswer, Impl.RekeySession.Valid, Impl.RekeySession.Model, Inv;
      var challenge := Challenge(path);
      if challenge.Err? {
        return [], false;
      }
      effects := [Send(challenge.value.0)];
      if answer.None? {
        return effects, false;
      }
      accepted := CheckAnswer(path.carrierId, challenge.value.1, answer.value);
    }

    method CheckAnswer(carrierId: Bytes, expected: Digest, answer: PathAnswer) returns (accepted: bool)
      requires Valid()
      modifies crypto.Repr
      ensures Valid() && fresh(crypto.Repr - old(crypto.Repr))
      ensures var (r, accepts) := TakeAnswer(crypto.p, old(Model()), carrierId, expected, answer);
              Model() == r.state && r.effects == [] && r.error == None && accepted == accepts
    {
      hide Open, AcceptPathResponse, Frames, Impl.RekeySession.Valid, Impl.RekeySession.Model, Inv;
      var unsealed := crypto.Open(answer.record, answer.arrived);
      if unsealed.Err? || unsealed.value.header.kind != Control || unsealed.value.position != Current {
        return false;
      }
      var parsed := ParseFrames(unsealed.value.plaintext, Control);
      if parsed.Err? {
        return false;
      }
      var frames := parsed.value;
      if |frames| != 1 || frames[0].frameType != 0x0D || frames[0].flags != 0 {
        return false;
      }
      var outcome := AcceptThere(answer.record, frames[0].body, carrierId, expected);
      return outcome.Ok?;
    }

    method Challenge(path: Path) returns (r: Result<(Sealed, Digest), Error>)
      requires crypto.Valid()
      modifies crypto.Repr
      ensures crypto.Valid() && crypto.Repr == old(crypto.Repr)
      ensures (crypto.Model(), r)
              == PathChallenge(crypto.p, old(crypto.Model()), path.migrationSecret, path.carrierId, path.challenge)
    {
      hide PathChallenge;
      r := crypto.PathChallenge(path.migrationSecret, path.carrierId, path.challenge);
    }

    method AcceptThere(record: Sealed, body: Bytes, carrierId: Bytes, expected: Digest) returns (r: Result<(), Error>)
      requires crypto.Valid()
      modifies crypto.Repr
      ensures crypto.Valid() && crypto.Repr == old(crypto.Repr)
      ensures (crypto.Model(), r) == AcceptPathResponse(crypto.p, old(crypto.Model()), record, body, carrierId,
                                                        expected)
    {
      hide AcceptPathResponse;
      r := crypto.AcceptPathResponse(record, body, carrierId, expected);
    }

    method Ask(now: nat) returns (r: Result<Option<Sealed>, Error>)
      requires crypto.Valid()
      modifies crypto.Repr
      ensures crypto.Valid() && crypto.Repr == old(crypto.Repr)
      ensures (crypto.Model(), r) == RequestUpdateIfDue(crypto.p, old(crypto.Model()), now)
    {
      hide RequestUpdateIfDue;
      r := crypto.RequestUpdateIfDue(now);
    }
  }

  // ---- Nothing happens after an error ----

  lemma {:induction false} DataFramesStop(s: State, source: Bytes, frames: seq<Frame>, clock: nat -> Reading, k: nat)
    requires k <= |frames| && DataFrames(s, source, frames[..k], clock).error.Some?
    ensures DataFrames(s, source, frames, clock) == DataFrames(s, source, frames[..k], clock)
    decreases |frames|
  {
    hide DataFrame;
    if k < |frames| {
      var n := |frames| - 1;
      assert frames[..n][..k] == frames[..k];
      DataFramesStop(s, source, frames[..n], clock, k);
    } else {
      assert frames[..k] == frames;
    }
  }

  lemma {:induction false} ControlFramesStop(p: Primitives, s: State, record: Sealed, position: Position,
                                             frames: seq<Frame>, env: Env, now: nat, k: nat)
    requires k <= |frames|
    requires var (r, closed) := ControlFrames(p, s, record, position, frames[..k], env, now); r.error.Some? || closed
    ensures ControlFrames(p, s, record, position, frames, env, now)
            == ControlFrames(p, s, record, position, frames[..k], env, now)
    decreases |frames|
  {
    hide ControlFrame;
    if k < |frames| {
      var n := |frames| - 1;
      assert frames[..n][..k] == frames[..k];
      ControlFramesStop(p, s, record, position, frames[..n], env, now, k);
    } else {
      assert frames[..k] == frames;
    }
  }

  lemma {:induction false} SealAllStop(s: State, plaintexts: seq<Bytes>, k: nat)
    requires k <= |plaintexts| && SealAll(s, plaintexts[..k]).error.Some?
    ensures SealAll(s, plaintexts) == SealAll(s, plaintexts[..k])
    decreases |plaintexts|
  {
    hide SealOne;
    if k < |plaintexts| {
      var n := |plaintexts| - 1;
      assert plaintexts[..n][..k] == plaintexts[..k];
      SealAllStop(s, plaintexts[..n], k);
    } else {
      assert plaintexts[..k] == plaintexts;
    }
  }
}
