/** The transmit operation as the driver keeps it: one record whose fields change in place. */
module BcmTxOperation {
  import opened Options
  import opened BcmFrames
  import opened Words
  import opened BcmTx

  class TxOperation {
    const canId: Word
    var flags: TxFlags
    const frames: array<Frame>
    var nframes: nat
    var currframe: nat
    var count: nat
    var ival1: nat
    var ival2: nat
    var timer: Option<nat>
    var tasklet: bool
    var sent: seq<Sent>
    var expired: seq<nat>

    ghost function View(): TxOp
      reads this, frames
    {
      TxOp(canId, flags, frames[..], nframes, currframe, count, ival1, ival2, timer, tasklet, sent, expired)
    }

    ghost predicate Valid()
      reads this, frames
    {
      Shape(View())
    }

    /** The zeroed record of a first TX_SETUP. */
    constructor (m: Message)
      ensures View() == NewOp(m) && frames.Length == |m.frames| && fresh(frames)
    {
      canId, flags := m.canId, TxFlags(false, false, false, false, false, false);
      frames := new Frame[|m.frames|];
      nframes, currframe, count, ival1, ival2 := 0, 0, 0, 0, 0;
      timer, tasklet, sent, expired := None, false, [], [];
      new;
      forall i | 0 <= i < frames.Length { frames[i] := EMPTY; }
    }

    method CanTx(dev: bool, now: nat)
      requires Valid()
      modifies this`sent, this`currframe
      ensures Valid() && View() == BcmTx.CanTx(old(View()), dev, now)
    {
      if !dev { return; }
      sent := sent + [Sent(frames[currframe], now)];
      currframe := currframe + 1;
      if currframe >= nframes { currframe := 0; }
    }

    method StartTimer(now: nat)
      modifies this`timer
      ensures View() == BcmTx.StartTimer(old(View()), now)
    {
      if ival1 != 0 && count != 0 {
        timer := Some(now + ival1);
      } else if ival2 != 0 {
        timer := Some(now + ival2);
      }
    }

    method TimeoutHandler(now: nat)
      requires Valid() && timer.Some? && timer.value <= now
      modifies this`timer, this`tasklet
      ensures Valid() && View() == Expire(old(View()), now)
    {
      timer, tasklet := None, true;
    }

    method TimeoutTasklet(dev: bool, now: nat)
      requires Valid() && tasklet
      modifies this
      ensures Valid() && View() == Tasklet(old(View()), dev, now)
    {
      tasklet := false;
      if ival1 != 0 && count > 0 {
        count := count - 1;
        if count == 0 && flags.countEvt { expired := expired + [now]; }
        CanTx(dev, now);
      } else if ival2 != 0 {
        CanTx(dev, now);
      }
      StartTimer(now);
    }

    /** Copies the message's frames one by one and stops behind the first bad one. */
    method CopyFromUser(m: Message) returns (ok: bool)
      requires |m.frames| <= frames.Length
      modifies frames
      ensures (frames[..], ok) == CopyFrames(old(frames[..]), m, 0)
    {
      var i := 0;
      while i < |m.frames|
        invariant 0 <= i <= |m.frames|
        invariant CopyFrames(frames[..], m, i) == CopyFrames(old(frames[..]), m, 0)
      {
        ghost var before := frames[..];
        frames[i] := m.frames[i];
        if Bad(frames[i]) {
          assert frames[..] == before[i := m.frames[i]];
          return false;
        }
        if m.flags.cpCanId { frames[i] := frames[i].(id := m.canId); }
        assert frames[..] == before[i := if m.flags.cpCanId then m.frames[i].(id := m.canId) else m.frames[i]];
        i := i + 1;
      }
      return true;
    }

    method Adopt(m: Message)
      requires Sized(m) && |m.frames| <= frames.Length
      requires nframes == |m.frames| ==> currframe < nframes
      modifies this
      ensures Valid() && View() == BcmTx.Adopt(old(View()), m)
    {
      if nframes != |m.frames| {
        nframes, currframe := |m.frames|, 0;
      }
      flags := m.flags;
      if flags.resetMultiIdx { currframe := 0; }
      if flags.setTimer {
        count, ival1, ival2 := m.count, 1000 * m.ival1Us, 1000 * m.ival2Us;
        if ival1 == 0 && ival2 == 0 { timer := None; }
      }
    }

    method Launch(dev: bool, now: nat)
      requires Valid()
      modifies this
      ensures Valid() && View() == BcmTx.Launch(old(View()), dev, now)
    {
      if flags.startTimer {
        timer := None;
        flags := flags.(announce := true);
      }
      if flags.announce {
        CanTx(dev, now);
        if count > 0 { count := count - 1; }
      }
      if flags.startTimer { StartTimer(now); }
    }

    /** TX_SETUP of an existing operation. */
    method Update(m: Message, dev: bool, now: nat) returns (error: Option<SetupError>)
      requires Valid()
      modifies this, frames
      ensures Valid()
      ensures var s := Setup(old(View()), m, dev, now);
        View() == s.op && error == if s.Rejected? then Some(s.error) else None
    {
      if !Sized(m) { return Some(EINVAL); }
      if |m.frames| > nframes { return Some(E2BIG); }
      var ok := CopyFromUser(m);
      if !ok { return Some(EINVAL); }
      Adopt(m);
      Launch(dev, now);
      return None;
    }
  }

  /** First TX_SETUP for an identifier: a new operation, or null when the message is refused. */
  method CreateOperation(m: Message, dev: bool, now: nat) returns (op: TxOperation?)
    ensures op == null <==> Create(m, dev, now) == None
    ensures op != null ==> fresh(op) && op.Valid() && Create(m, dev, now) == Some(op.View())
  {
    if !Sized(m) { return null; }
    var o := new TxOperation(m);
    var ok := o.CopyFromUser(m);
    if !ok { return null; }
    o.Adopt(m);
    o.Launch(dev, now);
    return o;
  }
}
