/** What the server does with one record: opening it, and acting on each control frame inside. */
module ServerRecords {
  import opened Prelude
  import opened Record
  import opened Rekey
  import Impl = RekeySession

  datatype RecordError = Crypto(error: Error) | BadFrames | NotSingleFrame | WrongEpochOrFlags

  /** What a full rekey needs from outside the session. */
  datatype Env = Env(clientKey: Bytes, serverKey: Bytes, ephemeral: Bytes)

  /** Records to send back, and whether the peer asked to close. */
  datatype Reply = Reply(records: seq<Sealed>, close: bool)

  function Answer(r: (Session, Result<Sealed, Error>)): (Session, Result<Reply, RecordError>) {
    (r.0, match r.1 case Ok(sealed) => Ok(Reply([sealed], false)) case Err(e) => Err(Crypto(e)))
  }

  function HandleFrame(p: Primitives, s: Session, record: Sealed, position: Position, f: Frame, env: Env, now: nat)
    : (Session, Result<Reply, RecordError>)
  {
    if f.frameType == 0x02 then
      if |f.body| >= U16_LIMIT then (s, Err(BadFrames))
      else Answer(SealControl(s, FrameBytes(Frame(0x03, 0, f.body)), false))
    else if f.frameType == 0x05 then
      if position != Current || f.flags != 0 then (s, Err(WrongEpochOrFlags))
      else Answer(AcceptUpdateInit(p, s, record, f.body, now))
    else if f.frameType == 0x07 then
      if position != Pending_ || f.flags != 0 then (s, Err(WrongEpochOrFlags))
      else Answer(AcceptUpdateCommit(p, s, record, f.body, now))
    else if f.frameType == 0x09 then
      if position != Current || f.flags != 0 then (s, Err(WrongEpochOrFlags))
      else Answer(AcceptFullRekeyInit(p, s, record, f.body, env.clientKey, env.serverKey, env.ephemeral, now))
    else if f.frameType == 0x0B then
      if position != Pending_ || f.flags != 0 then (s, Err(WrongEpochOrFlags))
      else Answer(AcceptFullRekeyConfirm(p, s, record, f.body, now))
    else (s, Ok(Reply([], f.frameType == 0x12)))
  }

  function HandleFrames(p: Primitives, s: Session, record: Sealed, position: Position, frames: seq<Frame>, env: Env,
                        now: nat)
    : (Session, Result<Reply, RecordError>)
    decreases |frames|
  {
    if frames == [] then (s, Ok(Reply([], false)))
    else
      var (s1, r) := HandleFrame(p, s, record, position, frames[0], env, now);
      if r.Err? || r.value.close then (s1, r)
      else Prepend(r.value.records, HandleFrames(p, s1, record, position, frames[1..], env, now))
  }

  function Prepend(records: seq<Sealed>, r: (Session, Result<Reply, RecordError>))
    : (Session, Result<Reply, RecordError>)
  {
    (r.0, match r.1 case Ok(reply) => Ok(reply.(records := records + reply.records)) case Err(e) => Err(e))
  }

  function ActOn(p: Primitives, s: Session, record: Sealed, opening: OpenedRecord, env: Env, now: nat)
    : (Session, Result<Reply, RecordError>)
  {
    var frames := Frames(opening.plaintext, opening.header.kind);
    if frames.Err? then (s, Err(BadFrames))
    else if opening.header.kind == Data then (s, Ok(Reply([], false)))
    else if |frames.value| != 1 && exists f | f in frames.value :: SecurityCritical(f) then (s, Err(NotSingleFrame))
    else HandleFrames(p, s, record, opening.position, frames.value, env, now)
  }

  /** The clock is read when the record is opened and again when its one critical frame is handled. The packets
      inside a data record are handled by the packet path; here they only have to parse. */
  function ProcessRecord(p: Primitives, s: Session, record: Sealed, env: Env, arrived: nat, now: nat)
    : (Session, Result<Reply, RecordError>)
  {
    var (s1, r) := Open(s, record, arrived);
    if r.Err? then (s1, Err(Crypto(r.error))) else ActOn(p, s1, record, r.value, env, now)
  }

  /** The method for one control frame, on the session object. */
  method Handle(session: Impl.RekeySession, record: Sealed, position: Position, f: Frame, env: Env, now: nat)
    returns (r: Result<Reply, RecordError>)
    requires session.Valid()
    modifies session.Repr
    ensures session.Valid() && fresh(session.Repr - old(session.Repr))
    ensures (session.Model(), r) == HandleFrame(session.p, old(session.Model()), record, position, f, env, now)
  {
    hide SealControl, AcceptUpdateInit, AcceptUpdateCommit, AcceptFullRekeyInit, AcceptFullRekeyConfirm, FrameBytes;
    var sealed: Result<Sealed, Error>;
    if f.frameType == 0x02 {
      if |f.body| >= U16_LIMIT {
        return Err(BadFrames);
      }
      sealed := session.SealControl(FrameBytes(Frame(0x03, 0, f.body)), false);
    } else if f.frameType == 0x05 {
      if position != Current || f.flags != 0 {
        return Err(WrongEpochOrFlags);
      }
      sealed := session.AcceptUpdateInit(record, f.body, now);
    } else if f.frameType == 0x07 {
      if position != Pending_ || f.flags != 0 {
        return Err(WrongEpochOrFlags);
      }
      sealed := session.AcceptUpdateCommit(record, f.body, now);
    } else if f.frameType == 0x09 {
      if position != Current || f.flags != 0 {
        return Err(WrongEpochOrFlags);
      }
      sealed := session.AcceptFullRekeyInit(record, f.body, env.clientKey, env.serverKey, env.ephemeral, now);
    } else if f.frameType == 0x0B {
      if position != Pending_ || f.flags != 0 {
        return Err(WrongEpochOrFlags);
      }
      sealed := session.AcceptFullRekeyConfirm(record, f.body, now);
    } else {
      return Ok(Reply([], f.frameType == 0x12));
    }
    if sealed.Err? {
      return Err(Crypto(sealed.error));
    }
    return Ok(Reply([sealed.value], false));
  }
}
