/** Which records can move a session between epochs, whatever else they carry. */
module EpochPositions {
  import opened Prelude
  import opened Record
  import opened Rekey
  import opened ServerRecords
  import Safety = RekeySafety

  /** A control record of exactly one frame, without flags and of one of two types. */
  predicate CarriesOnly(record: Sealed, one: byte, other: byte) {
    && record.header.kind == Control
    && Frames(record.plaintext, Control).Ok?
    && var frames := Frames(record.plaintext, Control).value;
       |frames| == 1 && frames[0].flags == 0 && (frames[0].frameType == one || frames[0].frameType == other)
  }

  lemma QuietFrame(p: Primitives, s: Session, record: Sealed, position: Position, f: Frame, env: Env, now: nat)
    requires Safety.Shape(p, s) && !SecurityCritical(f)
    ensures var (s1, _) := HandleFrame(p, s, record, position, f, env, now); Safety.Shape(p, s1) && Safety.Quiet(s, s1)
  {
    hide Safety.Shape, SealControl;
    Safety.SealControlIsQuiet(p, s, FrameBytes(Frame(0x03, 0, f.body)), false);
  }

  lemma {:induction false} QuietFrames(p: Primitives, s: Session, record: Sealed, position: Position,
                                       frames: seq<Frame>, env: Env, now: nat)
    requires Safety.Shape(p, s) && forall f | f in frames :: !SecurityCritical(f)
    ensures var (s1, _) := HandleFrames(p, s, record, position, frames, env, now);
            Safety.Shape(p, s1) && Safety.Quiet(s, s1)
    decreases |frames|
  {
    hide Safety.Shape, HandleFrame, SecurityCritical;
    if frames != [] {
      QuietFrame(p, s, record, position, frames[0], env, now);
      QuietFrames(p, HandleFrame(p, s, record, position, frames[0], env, now).0, record, position, frames[1..],
                  env, now);
    }
  }

  /** What one security-critical frame can do, by the position of its record. */
  lemma CriticalFrame(p: Primitives, s: Session, record: Sealed, position: Position, f: Frame, env: Env, now: nat)
    requires Safety.Shape(p, s)
    ensures var (s1, _) := HandleFrame(p, s, record, position, f, env, now);
            && Safety.Shape(p, s1)
            && (s1.current.epoch != s.current.epoch ==>
                  && position == Pending_ && f.flags == 0 && (f.frameType == 0x07 || f.frameType == 0x0B)
                  && Safety.Rotates(s, s1, now))
            && (s.pending.None? && s1.pending.Some? ==>
                  && position == Current && f.flags == 0 && (f.frameType == 0x05 || f.frameType == 0x09)
                  && Safety.Begins(p, s, s1))
  {
    hide Safety.Shape, SealControl, AcceptUpdateInit, AcceptUpdateCommit, AcceptFullRekeyInit, AcceptFullRekeyConfirm;
    Safety.SealControlIsQuiet(p, s, FrameBytes(Frame(0x03, 0, f.body)), false);
    Safety.UpdateInitEffect(p, s, record, f.body, now);
    Safety.FullInitEffect(p, s, record, f.body, env.clientKey, env.serverKey, env.ephemeral, now);
    Safety.CommitEffect(p, s, record, f.body, now);
  }

  lemma OneFrame(p: Primitives, s: Session, record: Sealed, position: Position, f: Frame, env: Env, now: nat)
    ensures HandleFrames(p, s, record, position, [f], env, now).0 == HandleFrame(p, s, record, position, f, env, now).0
  {
    hide HandleFrame;
    assert [f][1..] == [];
  }

  /** The session enters an epoch only on a control record of that epoch that consists of one COMMIT or
      full-rekey CONFIRM, and gets a pending epoch only on a control record of the current one that consists
      of one INIT. No other record, and no frame hidden beside others, moves it. */
  lemma OnlyRekeyRecordsMoveEpochs(p: Primitives, s: Session, record: Sealed, env: Env, arrived: nat, now: nat)
    requires Safety.Shape(p, s)
    ensures var (s1, _) := ProcessRecord(p, s, record, env, arrived, now);
            && Safety.Shape(p, s1)
            && (s1.current.epoch != s.current.epoch ==>
                  && s1.current.epoch == s.current.epoch + 1 == record.header.epoch
                  && CarriesOnly(record, 0x07, 0x0B))
            && (s.pending.None? && s1.pending.Some? ==>
                  && record.header.epoch == s.current.epoch
                  && CarriesOnly(record, 0x05, 0x09))
  {
    hide Safety.Shape, Open, HandleFrames, Frames, SecurityCritical, Safety.Remembers;
    Safety.OpenCallEffect(p, s, record, arrived);
    var (after, r) := Open(s, record, arrived);
    if r.Ok? && record.header.kind == Control && Frames(record.plaintext, Control).Ok? {
      var frames := Frames(record.plaintext, Control).value;
      if |frames| == 1 {
        assert frames == [frames[0]];
        OneFrame(p, after, record, r.value.position, frames[0], env, now);
        CriticalFrame(p, after, record, r.value.position, frames[0], env, now);
        RotatesToPending(p, s, after);
      } else if forall f | f in frames :: !SecurityCritical(f) {
        QuietFrames(p, after, record, r.value.position, frames, env, now);
      }
    }
  }

  lemma RotatesToPending(p: Primitives, s: Session, after: Session)
    requires Safety.Shape(p, after) && after.current.epoch == s.current.epoch
    ensures after.pending.Some? ==> after.pending.value.state.epoch == s.current.epoch + 1
  {
  }
}
