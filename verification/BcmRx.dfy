/** The frames the broadcast manager stores, compares and forwards. */
module BcmFrames {
  import opened Words

  // The payload is the 64-bit word that GET_U64 reads out of the eight data bytes.
  datatype Frame = Frame(id: Word, dlc: bv8, data: Word)

  const EMPTY := Frame({}, 0, {})
  const MAX_DLC: bv8 := 8

  // The status bits the receive side keeps in the upper bits of can_dlc.
  const RX_RECV: bv8 := 0x40
  const RX_THR: bv8 := 0x80
  const DLC_MASK: bv8 := 0x0F

  predicate Received(f: Frame) { f.dlc & RX_RECV != 0 }

  predicate Throttled(f: Frame) { f.dlc & RX_THR != 0 }

  /** The frame without its private status bits: what the user is handed. */
  function Strip(f: Frame): Frame { f.(dlc := f.dlc & DLC_MASK) }

  function ClearThrottle(f: Frame): Frame { f.(dlc := f.dlc & (DLC_MASK | RX_RECV)) }

  function MarkNew(f: Frame): Frame { f.(dlc := f.dlc | RX_RECV | RX_THR) }

  lemma StatusBits(f: Frame)
    ensures Received(MarkNew(f)) && Throttled(MarkNew(f))
    ensures !Throttled(ClearThrottle(f)) && Received(ClearThrottle(f)) == Received(f)
    ensures Strip(ClearThrottle(f)) == Strip(f)
    ensures f.dlc <= MAX_DLC ==> Strip(MarkNew(f)) == f
    ensures !Received(EMPTY) && !Throttled(EMPTY)
  {
  }
}

/**
 A receive operation of the broadcast manager as a value, and one function for
 every entry point of the source that changes it. Times are nanoseconds of the
 monotonic clock; 0 is never a clock reading, so it can mean "reset" in lastmsg.
 */
module BcmRx {
  import opened Options
  import opened BcmFrames
  import opened Words

  datatype RxFlags = RxFlags(setTimer: bool, startTimer: bool, cpCanId: bool, filterId: bool,
                             checkDlc: bool, noAutotimer: bool, announceResume: bool, rtrFrame: bool)

  // What leaves the operation: messages queued for the user, and replies sent to the bus.
  datatype Notice =
    | Changed(slot: nat, frame: Frame, at: nat)
    | TimedOut(at: nat)
    | Reply(frame: Frame, at: nat)

  datatype RxOp = RxOp(
    canId: Word, flags: RxFlags, nframes: nat,
    frames: seq<Frame>,   // masks: frames[0] is the multiplex mask when nframes > 1
    last: seq<Frame>,     // last received content, with status bits in dlc
    ival1: nat, ival2: nat, lastmsg: nat,
    timer: Option<nat>, timerTasklet: bool,
    thr: Option<nat>, thrTasklet: bool,
    log: seq<Notice>)

  const MAX_NFRAMES: nat := 256

  /** The slots that hold received content: 1..nframes for a multiplex filter, else slot 0. */
  function Lo(op: RxOp): nat { if op.nframes > 1 then 1 else 0 }

  function Hi(op: RxOp): nat { if op.nframes > 1 then op.nframes else 1 }

  predicate InRange(op: RxOp, i: nat) { Lo(op) <= i < Hi(op) }

  ghost predicate Shape(op: RxOp) {
    && |op.frames| == |op.last|
    && Hi(op) <= |op.last|
    && (op.flags.rtrFrame ==> op.nframes == 1)
    && (op.flags.filterId <==> op.nframes == 0)
  }

  /** The fields that fix an operation's shape are those of the other one. */
  ghost predicate SameShape(r: RxOp, op: RxOp) {
    && r.canId == op.canId && r.flags == op.flags && r.nframes == op.nframes
    && |r.frames| == |op.frames| && |r.last| == |op.last|
  }

  // ---------- sending to the user ----------

  function SendChanged(op: RxOp, i: nat, now: nat): RxOp
    requires i < |op.last|
  {
    var cleared := ClearThrottle(op.last[i]);
    op.(last := op.last[i := cleared], log := op.log + [Changed(i, Strip(cleared), now)])
  }

  /** ktime_us_delta: whole microseconds, truncated toward zero. */
  function UsDelta(later: nat, earlier: nat): int {
    if later >= earlier then (later - earlier) / 1000 else -((earlier - later) / 1000)
  }

  function UpdateAndSend(op: RxOp, i: nat, rx: Frame, now: nat): (r: RxOp)
    requires i < |op.last|
    ensures SameShape(r, op)
  {
    var stored := op.(last := op.last[i := MarkNew(rx)]);
    if op.ival2 == 0 then SendChanged(stored, i, now)
    else if op.thr.Some? then stored
    else if op.lastmsg != 0 && UsDelta(now, op.lastmsg) < op.ival2 / 1000 then
      stored.(thr := Some(op.lastmsg + op.ival2))
    else SendChanged(stored, i, now).(lastmsg := now)
  }

  predicate Relevant(op: RxOp, i: nat, rx: Frame)
    requires i < |op.last| && i < |op.frames|
  {
    || !Received(op.last[i])
    || op.frames[i].data * rx.data != op.frames[i].data * op.last[i].data
    || (op.flags.checkDlc && rx.dlc != op.last[i].dlc & DLC_MASK)
  }

  function CompareToSlot(op: RxOp, i: nat, rx: Frame, now: nat): RxOp
    requires i < |op.last| && i < |op.frames|
  {
    if Relevant(op, i, rx) then UpdateAndSend(op, i, rx, now) else op
  }

  predicate MuxFits(frames: seq<Frame>, i: nat, rx: Frame)
    requires 0 < |frames| && i < |frames|
  {
    frames[0].data * rx.data == frames[0].data * frames[i].data
  }

  /** First slot in [i, n) whose multiplex value fits, or n. */
  function FindMux(frames: seq<Frame>, n: nat, rx: Frame, i: nat): (r: nat)
    requires i <= n <= |frames| && 0 < |frames|
    ensures i <= r <= n
    ensures forall j :: i <= j < r ==> !MuxFits(frames, j, rx)
    ensures r < n ==> MuxFits(frames, r, rx)
    decreases n - i
  {
    if i == n || MuxFits(frames, i, rx) then i else FindMux(frames, n, rx, i + 1)
  }

  function StartTimer(op: RxOp, now: nat): RxOp {
    if op.flags.noAutotimer || op.ival1 == 0 then op else op.(timer := Some(now + op.ival1))
  }

  /** Slot a received frame is compared with; nframes stands for "no multiplex value fits". */
  function Target(op: RxOp, rx: Frame): (i: nat)
    requires Shape(op)
    ensures InRange(op, i) || (op.nframes > 1 && i == op.nframes)
  {
    if op.nframes > 1 && !op.flags.filterId then FindMux(op.frames, op.nframes, rx, 1)
    else Lo(op)
  }

  function Filter(op: RxOp, rx: Frame, now: nat): (r: RxOp)
    requires Shape(op)
    ensures SameShape(r, op)
  {
    if op.flags.filterId then UpdateAndSend(op, 0, rx, now)
    else if op.nframes == 1 then CompareToSlot(op, 0, rx, now)
    else if op.nframes > 1 then
      var i := FindMux(op.frames, op.nframes, rx, 1);
      if i < op.nframes then CompareToSlot(op, i, rx, now) else op
    else op
  }

  /** bcm_rx_handler; dev says whether the operation's interface exists for an RTR reply. */
  function Arrive(op: RxOp, rx: Frame, dev: bool, now: nat): (r: RxOp)
    requires Shape(op)
    ensures SameShape(r, op)
  {
    var op := op.(timer := None);
    if op.canId != rx.id then op
    else if op.flags.rtrFrame then
      if dev then op.(log := op.log + [Reply(op.frames[0], now)]) else op
    else StartTimer(Filter(op, rx, now), now)
  }

  // ---------- throttle timer ----------

  function FlushSlot(op: RxOp, i: nat, now: nat): RxOp
    requires i < |op.last|
  {
    if Throttled(op.last[i]) then SendChanged(op, i, now) else op
  }

  function FlushFrom(op: RxOp, i: nat, hi: nat, now: nat): (r: RxOp)
    requires i <= hi <= |op.last|
    ensures |r.last| == |op.last| && r == op.(last := r.last, log := r.log)
    decreases hi - i
  {
    if i == hi then op else FlushFrom(FlushSlot(op, i, now), i + 1, hi, now)
  }

  function Flush(op: RxOp, now: nat): RxOp
    requires Shape(op)
  {
    FlushFrom(op, Lo(op), Hi(op), now)
  }

  /** Number of throttled slots in [i, hi): the result of a flush that only looks. */
  function CountThrottled(last: seq<Frame>, i: nat, hi: nat): (n: nat)
    requires i <= hi <= |last|
    ensures n == 0 <==> forall j :: i <= j < hi ==> !Throttled(last[j])
    decreases hi - i
  {
    if i == hi then 0
    else (if Throttled(last[i]) then 1 else 0) + CountThrottled(last, i + 1, hi)
  }

  /** The interval hrtimer_forward steps by: at least one nanosecond. */
  function StepOf(interval: nat): nat { if interval == 0 then 1 else interval }

  /** hrtimer_forward: the first expiry after now, whole steps past the old one. */
  function Forward(expiry: nat, now: nat, interval: nat): (e: nat)
    ensures now < expiry ==> e == expiry
    ensures expiry <= now ==>
      e > now && e >= expiry + interval && e - StepOf(interval) <= now && (e - expiry) % StepOf(interval) == 0
  {
    if now < expiry then expiry
    else
      var step := StepOf(interval);
      var q := (now - expiry) / step + 1;
      ForwardBounds(now - expiry, step);
      MultipleIsWhole(q, step);
      expiry + q * step
  }

  lemma ForwardBounds(delta: nat, step: nat)
    requires step > 0
    ensures (delta / step + 1) * step > delta && delta >= (delta / step + 1) * step - step >= 0
  {
    assert (delta / step + 1) * step == delta / step * step + step;
    assert delta / step >= 0;
  }

  lemma MultipleIsWhole(q: nat, step: nat)
    requires step > 0
    ensures q * step % step == 0
  {
    var d := q * step / step - q;
    assert step * d == 0 - q * step % step;
  }

  function ThrExpire(op: RxOp, now: nat): (r: RxOp)
    requires Shape(op)
    ensures SameShape(r, op)
  {
    if op.thr.None? || now < op.thr.value then op
    else
      var op := op.(thrTasklet := true);
      if CountThrottled(op.last, Lo(op), Hi(op)) > 0 then
        op.(thr := Some(Forward(op.thr.value, now, op.ival2)))
      else op.(lastmsg := 0, thr := None)
  }

  function ThrRun(op: RxOp, now: nat): (r: RxOp)
    requires Shape(op)
    ensures SameShape(r, op)
  {
    if op.thrTasklet then Flush(op.(thrTasklet := false), now) else op
  }

  // ---------- reception timeout ----------

  function ClearSlots(last: seq<Frame>, n: nat): (r: seq<Frame>)
    requires n <= |last|
    ensures |r| == |last|
  {
    seq(n, _ => EMPTY) + last[n..]
  }

  function TimeoutExpire(op: RxOp, now: nat): (r: RxOp)
    requires Shape(op)
    ensures SameShape(r, op)
  {
    if op.timer.None? || now < op.timer.value then op
    else
      var op := op.(timer := None, timerTasklet := true);
      if op.flags.announceResume then op.(last := ClearSlots(op.last, op.nframes)) else op
  }

  function TimeoutRun(op: RxOp, now: nat): RxOp {
    if op.timerTasklet then op.(timerTasklet := false, log := op.log + [TimedOut(now)]) else op
  }

  // ---------- RX_SETUP ----------

  // An RX_SETUP message carries its frames; intervals are the microseconds of its timevals.
  datatype Message = Message(canId: Word, flags: RxFlags, nframes: nat, frames: seq<Frame>,
                             ival1Us: nat, ival2Us: nat)

  datatype SetupError = EINVAL | E2BIG

  datatype Result<T> = Ok(value: T) | Err(error: SetupError)

  predicate Complete(m: Message) { m.nframes <= |m.frames| }

  function Sanitize(m: Message): Message {
    if m.flags.filterId || m.nframes == 0 then m.(flags := m.flags.(filterId := true), nframes := 0) else m
  }

  predicate Admissible(m: Message) {
    && m.nframes <= MAX_NFRAMES + 1
    && (m.flags.rtrFrame ==> m.nframes == 1 && RTR_BIT in m.canId)
  }

  /** RTR mode: no timers, and the reply frame loses its RTR bit. */
  function ConfigureReply(op: RxOp, m: Message): (r: RxOp)
    requires 0 < |op.frames|
    ensures SameShape(r, op)
  {
    var f0 := op.frames[0];
    var reply := if m.flags.cpCanId || f0.id == op.canId then f0.(id := op.canId - {RTR_BIT}) else f0;
    op.(thr := None, timer := None, frames := op.frames[0 := reply])
  }

  function ConfigureTimers(op: RxOp, m: Message, now: nat): (r: RxOp)
    requires Hi(op) <= |op.last|
    ensures SameShape(r, op)
  {
    var op :=
      if m.flags.setTimer then
        FlushFrom(op.(ival1 := 1000 * m.ival1Us, ival2 := 1000 * m.ival2Us,
                      timer := if m.ival1Us == 0 then None else op.timer,
                      lastmsg := 0, thr := None), Lo(op), Hi(op), now)
      else op;
    if m.flags.startTimer && op.ival1 != 0 then op.(timer := Some(now + op.ival1)) else op
  }

  /** The part of RX_SETUP shared by new and updated operations: flags and timers. */
  function Configure(op: RxOp, m: Message, now: nat): (r: RxOp)
    requires |op.frames| == |op.last| && Hi(op) <= |op.last|
    ensures SameShape(r, op.(flags := m.flags))
  {
    var op := op.(flags := m.flags);
    if m.flags.rtrFrame then ConfigureReply(op, m) else ConfigureTimers(op, m, now)
  }

  function NewOp(m: Message): RxOp
    requires Complete(m)
  {
    var size := if m.nframes > 1 then m.nframes else 1;
    RxOp(m.canId, m.flags, m.nframes,
         if m.nframes == 0 then [EMPTY] else m.frames[..m.nframes], seq(size, _ => EMPTY),
         0, 0, 0, None, false, None, false, [])
  }

  /** RX_SETUP for an identifier that has no operation yet. */
  function Create(msg: Message, now: nat): (r: Result<RxOp>)
    requires Complete(msg)
    ensures r.Ok? ==> Shape(r.value)
  {
    var m := Sanitize(msg);
    if !Admissible(m) then Err(EINVAL) else Ok(Configure(NewOp(m), m, now))
  }

  /** RX_SETUP for an identifier whose operation exists. */
  function Setup(op: RxOp, msg: Message, now: nat): (r: Result<RxOp>)
    requires Shape(op) && Complete(msg)
    ensures r.Ok? ==> Shape(r.value) && r.value.canId == op.canId
  {
    var m := Sanitize(msg);
    if !Admissible(m) then Err(EINVAL)
    else if m.nframes > op.nframes then Err(E2BIG)
    else
      Ok(Configure(op.(frames := m.frames[..m.nframes] + op.frames[m.nframes..],
                       last := ClearSlots(op.last, m.nframes), nframes := m.nframes), m, now))
  }

  // ---------- runs ----------

  datatype State = State(op: RxOp, now: nat)

  datatype Step =
    | Tick(to: nat)
    | Frames(rx: Frame, dev: bool)
    | ThrottleExpires
    | ThrottleTasklet
    | TimeoutExpires
    | TimeoutTasklet
    | Configures(msg: Message)

  /** One step; a step that is not enabled leaves the state as it is. */
  function Next(s: State, a: Step): (s': State)
    requires Shape(s.op)
    ensures Shape(s'.op) && s'.op.canId == s.op.canId
  {
    match a
    case Tick(to) => if to > s.now then s.(now := to) else s
    case Frames(rx, dev) => if rx.dlc <= MAX_DLC then s.(op := Arrive(s.op, rx, dev, s.now)) else s
    case ThrottleExpires => s.(op := ThrExpire(s.op, s.now))
    case ThrottleTasklet => s.(op := ThrRun(s.op, s.now))
    case TimeoutExpires => s.(op := TimeoutExpire(s.op, s.now))
    case TimeoutTasklet => s.(op := TimeoutRun(s.op, s.now))
    case Configures(msg) =>
      if Complete(msg) && msg.canId == s.op.canId then
        match Setup(s.op, msg, s.now)
        case Ok(op) => s.(op := op)
        case Err(_) => s
      else s
  }

  function Run(s: State, steps: seq<Step>): (s': State)
    requires Shape(s.op)
    ensures Shape(s'.op)
  {
    if steps == [] then s else Next(Run(s, steps[..|steps| - 1]), steps[|steps| - 1])
  }
}
