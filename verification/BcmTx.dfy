/**
 A cyclic transmit operation of the broadcast manager: count frames at interval
 ival1, then frames at interval ival2. Times are nanoseconds of the monotonic clock.
 dev says whether the operation's interface exists when a frame is to be sent.
 */
module BcmTx {
  import opened Options
  import opened BcmFrames
  import opened Words

  datatype TxFlags = TxFlags(setTimer: bool, startTimer: bool, countEvt: bool, announce: bool,
                             cpCanId: bool, resetMultiIdx: bool)

  datatype Sent = Sent(frame: Frame, at: nat)

  datatype TxOp = TxOp(
    canId: Word, flags: TxFlags, frames: seq<Frame>, nframes: nat, currframe: nat,
    count: nat, ival1: nat, ival2: nat,
    timer: Option<nat>, tasklet: bool,
    sent: seq<Sent>,       // frames handed to the interface
    expired: seq<nat>)     // TX_EXPIRED messages, by the time they were queued

  const MAX_NFRAMES: nat := 256

  ghost predicate Shape(op: TxOp) {
    op.currframe < op.nframes <= |op.frames|
  }

  function CanTx(op: TxOp, dev: bool, now: nat): (r: TxOp)
    requires Shape(op)
    ensures Shape(r)
  {
    if !dev then op
    else
      op.(sent := op.sent + [Sent(op.frames[op.currframe], now)],
          currframe := if op.currframe + 1 >= op.nframes then 0 else op.currframe + 1)
  }

  function StartTimer(op: TxOp, now: nat): TxOp {
    if op.ival1 != 0 && op.count != 0 then op.(timer := Some(now + op.ival1))
    else if op.ival2 != 0 then op.(timer := Some(now + op.ival2))
    else op
  }

  function Expire(op: TxOp, now: nat): TxOp {
    if op.timer.Some? && op.timer.value <= now then op.(timer := None, tasklet := true) else op
  }

  function CountDown(op: TxOp, now: nat): TxOp
    requires op.count > 0
  {
    var op := op.(count := op.count - 1);
    if op.count == 0 && op.flags.countEvt then op.(expired := op.expired + [now]) else op
  }

  /** bcm_tx_timeout_tsklet, if it is scheduled. */
  function Tasklet(op: TxOp, dev: bool, now: nat): (r: TxOp)
    requires Shape(op)
    ensures Shape(r)
  {
    if !op.tasklet then op
    else
      var op := op.(tasklet := false);
      StartTimer(
        if op.ival1 != 0 && op.count > 0 then CanTx(CountDown(op, now), dev, now)
        else if op.ival2 != 0 then CanTx(op, dev, now)
        else op, now)
  }

  // ---------- TX_SETUP ----------

  datatype Message = Message(canId: Word, flags: TxFlags, frames: seq<Frame>,
                             count: nat, ival1Us: nat, ival2Us: nat)

  datatype SetupError = EINVAL | E2BIG

  predicate Bad(f: Frame) { f.dlc > MAX_DLC }

  /** The stored frames after copying the message's frames from index i on, up to the first bad one. */
  function CopyFrames(stored: seq<Frame>, m: Message, i: nat): (r: (seq<Frame>, bool))
    requires i <= |m.frames| <= |stored|
    ensures |r.0| == |stored|
    decreases |m.frames| - i
  {
    if i == |m.frames| then (stored, true)
    else if Bad(m.frames[i]) then (stored[i := m.frames[i]], false)
    else
      var f := if m.flags.cpCanId then m.frames[i].(id := m.canId) else m.frames[i];
      CopyFrames(stored[i := f], m, i + 1)
  }

  predicate Sized(m: Message) { 1 <= |m.frames| <= MAX_NFRAMES }

  /** Frame selection and timer values, once the frames are copied. */
  function Adopt(op: TxOp, m: Message): (r: TxOp)
    requires Sized(m) && |m.frames| <= |op.frames|
    requires op.nframes == |m.frames| ==> op.currframe < op.nframes
    ensures Shape(r)
  {
    var restart := op.nframes != |m.frames| || m.flags.resetMultiIdx;
    var op := op.(nframes := |m.frames|, currframe := if restart then 0 else op.currframe,
                  flags := m.flags);
    if m.flags.setTimer then
      op.(count := m.count, ival1 := 1000 * m.ival1Us, ival2 := 1000 * m.ival2Us,
          timer := if m.ival1Us == 0 && m.ival2Us == 0 then None else op.timer)
    else op
  }

  function Launch(op: TxOp, dev: bool, now: nat): (r: TxOp)
    requires Shape(op)
    ensures Shape(r)
  {
    var op :=
      if op.flags.startTimer then op.(timer := None, flags := op.flags.(announce := true)) else op;
    var op :=
      if op.flags.announce then
        var sent := CanTx(op, dev, now);
        sent.(count := if sent.count > 0 then sent.count - 1 else 0)
      else op;
    if op.flags.startTimer then StartTimer(op, now) else op
  }

  datatype Outcome = Done(op: TxOp) | Rejected(error: SetupError, op: TxOp)

  /** TX_SETUP of an existing operation. A bad frame is noticed after it was stored. */
  function Setup(op: TxOp, m: Message, dev: bool, now: nat): (r: Outcome)
    requires Shape(op)
    ensures Shape(r.op)
  {
    if !Sized(m) then Rejected(EINVAL, op)
    else if |m.frames| > op.nframes then Rejected(E2BIG, op)
    else
      var (stored, ok) := CopyFrames(op.frames, m, 0);
      if !ok then Rejected(EINVAL, op.(frames := stored))
      else Done(Launch(Adopt(op.(frames := stored), m), dev, now))
  }

  /** The zeroed operation a first TX_SETUP starts from, with room for the message's frames. */
  function NewOp(m: Message): TxOp {
    TxOp(m.canId, TxFlags(false, false, false, false, false, false),
         seq(|m.frames|, _ => EMPTY), 0, 0, 0, 0, 0, None, false, [], [])
  }

  /** First TX_SETUP for an identifier; None when the message is refused. */
  function Create(m: Message, dev: bool, now: nat): (r: Option<TxOp>)
    ensures r.Some? ==> Shape(r.value)
  {
    if !Sized(m) then None
    else
      var (stored, ok) := CopyFrames(NewOp(m).frames, m, 0);
      if !ok then None else Some(Launch(Adopt(NewOp(m).(frames := stored), m), dev, now))
  }

  // ---------- runs ----------

  datatype State = State(op: TxOp, now: nat)

  datatype Step = Tick(to: nat) | Expires | Runs(dev: bool) | Configures(msg: Message, dev: bool)

  function Next(s: State, a: Step): (s': State)
    requires Shape(s.op)
    ensures Shape(s'.op)
  {
    match a
    case Tick(to) => if to > s.now then s.(now := to) else s
    case Expires => s.(op := Expire(s.op, s.now))
    case Runs(dev) => s.(op := Tasklet(s.op, dev, s.now))
    case Configures(msg, dev) => s.(op := Setup(s.op, msg, dev, s.now).op)
  }

  /** The frame index always stays inside the frames of the operation, in every run. */
  function Run(s: State, steps: seq<Step>): (s': State)
    requires Shape(s.op)
    ensures Shape(s'.op)
  {
    if steps == [] then s else Next(Run(s, steps[..|steps| - 1]), steps[|steps| - 1])
  }
}
