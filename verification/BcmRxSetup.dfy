/** What an RX_SETUP asks for is what the operation then does: its content, its reply, and its timeout. */
module BcmRxSetup {
  import opened Options
  import opened Words
  import opened BcmFrames
  import opened BcmRx
  import opened BcmRxRuns
  import opened BcmRxSpacing
  import opened BcmRxPromptness

  // ---------- what is stored ----------

  /** The number of frames an RX_SETUP stands for: none if it asks for all content. */
  function Wanted(msg: Message): nat { if msg.flags.filterId then 0 else msg.nframes }

  /** Exactly the malformed messages are refused, and those with more frames than the operation has room for. */
  lemma RefusedIff(prior: Option<RxOp>, msg: Message, now: nat)
    requires Complete(msg) && (prior.Some? ==> Shape(prior.value))
    ensures var r, n := Install(prior, msg, now), Wanted(msg);
      && (r == Err(EINVAL) <==> n > 257 || (msg.flags.rtrFrame && (n != 1 || RTR_BIT !in msg.canId)))
      && (r == Err(E2BIG) <==> r != Err(EINVAL) && prior.Some? && n > prior.value.nframes)
  {
  }

  /** The flush that sends held content changes no more than slots and log. */
  lemma TimersStored(op: RxOp, m: Message, now: nat)
    requires Hi(op) <= |op.last|
    ensures var r := ConfigureTimers(op, m, now);
      && r.frames == op.frames
      && r.ival1 == (if m.flags.setTimer then 1000 * m.ival1Us else op.ival1)
      && r.timer == (if m.flags.startTimer && r.ival1 > 0 then Some(now + r.ival1)
                     else if m.flags.setTimer && m.ival1Us == 0 then None else op.timer)
  {
  }

  /** The operation an RX_SETUP configures, its frames copied in. */
  function Copied(prior: Option<RxOp>, msg: Message): RxOp
    requires Complete(msg) && (prior.Some? ==> Shape(prior.value) && Wanted(msg) <= prior.value.nframes)
  {
    var m := Sanitize(msg);
    match prior
    case None => NewOp(m).(flags := m.flags)
    case Some(op) =>
      op.(frames := m.frames[..m.nframes] + op.frames[m.nframes..],
          last := ClearSlots(op.last, m.nframes), nframes := m.nframes, flags := m.flags)
  }

  lemma InstallConfigures(prior: Option<RxOp>, msg: Message, now: nat)
    requires Complete(msg) && (prior.Some? ==> Shape(prior.value)) && Install(prior, msg, now).Ok?
    ensures prior.Some? ==> Wanted(msg) <= prior.value.nframes
    ensures var op := Copied(prior, msg);
      && Hi(op) <= |op.last| && 0 < |op.frames|
      && Install(prior, msg, now).value ==
           if msg.flags.rtrFrame then ConfigureReply(op, Sanitize(msg)) else ConfigureTimers(op, Sanitize(msg), now)
  {
  }

  /** An accepted RX_SETUP outside RTR mode stores the frames it carries, in order, and the flags. */
  lemma StoresContent(prior: Option<RxOp>, msg: Message, now: nat)
    requires Complete(msg) && (prior.Some? ==> Shape(prior.value))
    requires Install(prior, msg, now).Ok? && !msg.flags.rtrFrame
    ensures var r, n := Install(prior, msg, now).value, Wanted(msg);
      && r.nframes == n && r.flags == msg.flags.(filterId := n == 0)
      && r.canId == (if prior.Some? then prior.value.canId else msg.canId)
      && n <= |r.frames| && forall j :: 0 <= j < n ==> r.frames[j] == msg.frames[j]
  {
    InstallConfigures(prior, msg, now);
    TimersStored(Copied(prior, msg), Sanitize(msg), now);
  }

  /** The timeout takes a new interval only with SETTIMER and starts only with STARTTIMER. */
  lemma StoresTimeout(prior: Option<RxOp>, msg: Message, now: nat)
    requires Complete(msg) && (prior.Some? ==> Shape(prior.value))
    requires Install(prior, msg, now).Ok? && !msg.flags.rtrFrame
    ensures var r := Install(prior, msg, now).value;
      && r.ival1 == (if msg.flags.setTimer then 1000 * msg.ival1Us else if prior.Some? then prior.value.ival1 else 0)
      && r.timer == (if msg.flags.startTimer && r.ival1 > 0 then Some(now + r.ival1)
                     else if (msg.flags.setTimer && msg.ival1Us == 0) || prior.None? then None else prior.value.timer)
  {
    InstallConfigures(prior, msg, now);
    TimersStored(Copied(prior, msg), Sanitize(msg), now);
  }

  lemma TimersLeaveEmpty(op: RxOp, m: Message, now: nat)
    requires Hi(op) <= |op.last|
    ensures forall j :: 0 <= j < |op.last| && op.last[j] == EMPTY ==> ConfigureTimers(op, m, now).last[j] == EMPTY
  {
    StatusBits(EMPTY);
    var op1 := op.(ival1 := 1000 * m.ival1Us, ival2 := 1000 * m.ival2Us,
                   timer := if m.ival1Us == 0 then None else op.timer, lastmsg := 0, thr := None);
    FlushEffect(op1, Lo(op1), Hi(op1), now);
  }

  /** Every slot of a new content filter is empty, so the first frame for each slot passes. */
  lemma StartsEmpty(prior: Option<RxOp>, msg: Message, now: nat)
    requires Complete(msg) && (prior.Some? ==> Shape(prior.value)) && Install(prior, msg, now).Ok?
    ensures var r := Install(prior, msg, now).value;
      forall j :: 0 <= j < Wanted(msg) ==> r.last[j] == EMPTY && !Received(r.last[j])
  {
    StatusBits(EMPTY);
    InstallConfigures(prior, msg, now);
    TimersLeaveEmpty(Copied(prior, msg), Sanitize(msg), now);
  }

  /** A first RX_SETUP starts with a clean slate: nothing told, nothing pending, nothing held back. */
  lemma StartsQuiet(msg: Message, now: nat)
    requires Complete(msg) && Create(msg, now).Ok?
    ensures var r := Create(msg, now).value;
      && r.log == [] && !r.timerTasklet && !r.thrTasklet && r.thr == None && r.lastmsg == 0
      && |r.last| == (if r.nframes > 1 then r.nframes else 1) == |r.frames|
      && (!msg.flags.setTimer || msg.flags.rtrFrame ==> r.ival1 == 0 && r.ival2 == 0)
  {
    var m := Sanitize(msg);
    StatusBits(EMPTY);
    var op := NewOp(m).(flags := m.flags, ival1 := 1000 * m.ival1Us, ival2 := 1000 * m.ival2Us);
    if !m.flags.rtrFrame && m.flags.setTimer {
      forall j | Lo(op) <= j < Hi(op) ensures SlotKept(op, j) { assert op.last[j] == EMPTY; }
      NothingToFlush(op, Lo(op), Hi(op), now);
    }
  }

  // ---------- where a frame goes ----------

  /** Frame and slot j have the same bits where the multiplex mask has ones. */
  ghost predicate SameMux(op: RxOp, j: nat, rx: Frame)
    requires 0 < |op.frames| && j < |op.frames|
  {
    forall bit :: bit in op.frames[0].data ==> (bit in rx.data <==> bit in op.frames[j].data)
  }

  lemma MuxBits(op: RxOp, j: nat, rx: Frame)
    requires 0 < |op.frames| && j < |op.frames|
    ensures MuxFits(op.frames, j, rx) <==> SameMux(op, j, rx)
  {
    if MuxFits(op.frames, j, rx) {
      forall bit | bit in op.frames[0].data ensures bit in rx.data <==> bit in op.frames[j].data {
        assert bit in op.frames[0].data * rx.data <==> bit in op.frames[0].data * op.frames[j].data;
      }
    }
  }

  /**
   A multiplex operation compares a frame with the first slot, from 1 on, whose multiplex bits
   it has; without such a slot the frame changes nothing but the timeout.
   */
  lemma MuxSlotIsFirst(op: RxOp, rx: Frame, now: nat)
    requires Shape(op) && op.nframes > 1
    ensures var i := Target(op, rx);
      && 1 <= i <= op.nframes
      && (i < op.nframes ==> SameMux(op, i, rx))
      && (forall j :: 1 <= j < i ==> !SameMux(op, j, rx))
      && (i == op.nframes ==> Filter(op, rx, now) == op)
  {
    var i := Target(op, rx);
    if i < op.nframes { MuxBits(op, i, rx); }
    forall j | 1 <= j < i ensures !SameMux(op, j, rx) { MuxBits(op, j, rx); }
  }

  // ---------- replies ----------

  /** The frame an RTR operation answers with: never a remote request for its own identifier. */
  function AnswerTo(msg: Message): Frame
    requires 0 < |msg.frames|
  {
    var f := msg.frames[0];
    if msg.flags.cpCanId || f.id == msg.canId then f.(id := msg.canId - {RTR_BIT}) else f
  }

  /**
   In RTR mode every remote request for the identifier is answered with the frame of the
   RX_SETUP, and nothing is told to the user; any other frame does nothing.
   */
  lemma RequestsAreAnswered(prior: Option<RxOp>, msg: Message, now: nat, rx: Frame, dev: bool, at: nat)
    requires Complete(msg) && (prior.Some? ==> Shape(prior.value) && prior.value.canId == msg.canId)
    requires Install(prior, msg, now).Ok? && msg.flags.rtrFrame
    ensures var op := Install(prior, msg, now).value;
      && op.timer.None? && op.thr.None?
      && Arrive(op, rx, dev, at) == op.(log := op.log + if dev && rx.id == msg.canId then [Reply(AnswerTo(msg), at)] else [])
  {
  }

  // ---------- the reception timeout ----------

  /** A frame for the identifier starts the timeout anew, unless the operation has none; any other frame stops it. */
  lemma FrameRestartsTimeout(op: RxOp, rx: Frame, dev: bool, now: nat)
    requires Shape(op) && !op.flags.rtrFrame
    ensures Arrive(op, rx, dev, now).timer ==
      if rx.id == op.canId && op.ival1 > 0 && !op.flags.noAutotimer then Some(now + op.ival1) else None
  {
    var op1 := op.(timer := None);
    if InRange(op1, Target(op1, rx)) {
      FilterUpdatesTarget(op1, rx, now);
    } else {
      assert Filter(op1, rx, now) == op1;
    }
  }

  /** With RX_ANNOUNCE_RESUME a timeout empties the slots: whatever comes next for a slot passes. */
  lemma ResumeIsAnnounced(op: RxOp, now: nat, rx: Frame)
    requires Shape(op) && op.timer.Some? && op.timer.value <= now && op.flags.announceResume && !op.flags.rtrFrame
    requires op.canId == rx.id && rx.dlc <= MAX_DLC && InRange(op, Target(op, rx))
    ensures Passes(TimeoutExpire(op, now), rx)
  {
    var r := TimeoutExpire(op, now);
    assert Target(r, rx) == Target(op, rx);
    if !op.flags.filterId {
      ClearedSlots(op.last, op.nframes, Target(op, rx));
      StatusBits(EMPTY);
    }
  }

  /** The instants of the RX_TIMEOUT messages from index k on. */
  function Timeouts(log: seq<Notice>, k: nat): seq<nat> {
    if |log| <= k then []
    else
      var n := log[|log| - 1];
      Timeouts(log[..|log| - 1], k) + if n.TimedOut? then [n.at] else []
  }

  lemma {:induction false} ChangedAddNone(log: seq<Notice>, log': seq<Notice>, k: nat)
    requires k <= |log| && log <= log' && forall j :: |log| <= j < |log'| ==> log'[j].Changed?
    ensures Timeouts(log', k) == Timeouts(log, k)
    decreases |log'|
  {
    if |log'| == |log| {
      assert log' == log;
    } else {
      ChangedAddNone(log, log'[..|log'| - 1], k);
    }
  }

  lemma OneMore(log: seq<Notice>, k: nat, t: nat)
    requires k <= |log|
    ensures Timeouts(log + [TimedOut(t)], k) == Timeouts(log, k) + [t]
  {
    assert (log + [TimedOut(t)])[..|log|] == log;
  }

  /** The timeout is on time: the clock passes neither its expiry nor its pending tasklet. */
  ghost predicate TimeoutOnTime(s: State, a: Step) {
    a.Tick? ==> !s.op.timerTasklet && (s.op.timer.Some? ==> a.to <= s.op.timer.value)
  }

  /** Silence: no frame reaches the operation and nobody sets it up anew. */
  predicate Silent(a: Step) { !a.Frames? && !a.Configures? }

  /** The timeout that is to expire at e is counting, about to be told, or told. */
  ghost predicate Counting(s: State, k: nat, e: nat) {
    && k <= |s.op.log|
    && if s.op.timer.Some? then
         s.op.timer == Some(e) && !s.op.timerTasklet && s.now <= e && Timeouts(s.op.log, k) == []
       else if s.op.timerTasklet then s.now == e && Timeouts(s.op.log, k) == []
       else s.now >= e && Timeouts(s.op.log, k) == [e]
  }

  lemma NextCounting(s: State, a: Step, k: nat, e: nat)
    requires Shape(s.op) && Counting(s, k, e) && Silent(a) && TimeoutOnTime(s, a)
    ensures Counting(Next(s, a), k, e)
  {
    match a
    case Tick(_) =>
    case ThrottleExpires =>
    case ThrottleTasklet =>
      FlushEffect(s.op.(thrTasklet := false), Lo(s.op), Hi(s.op), s.now);
      ChangedAddNone(s.op.log, Next(s, a).op.log, k);
    case TimeoutExpires =>
    case TimeoutTasklet => if s.op.timerTasklet { OneMore(s.op.log, k, s.now); }
  }

  ghost predicate SilentRun(s: State, steps: seq<Step>)
    requires Shape(s.op)
  {
    forall i :: 0 <= i < |steps| ==> SilentAt(s, steps, i)
  }

  ghost predicate SilentAt(s: State, steps: seq<Step>, i: nat)
    requires Shape(s.op) && i < |steps|
  {
    Silent(steps[i]) && TimeoutOnTime(Run(s, steps[..i]), steps[i])
  }

  lemma SilentPrefix(s: State, steps: seq<Step>, n: nat)
    requires Shape(s.op) && SilentRun(s, steps) && n <= |steps|
    ensures SilentRun(s, steps[..n])
  {
    forall i | 0 <= i < n ensures SilentAt(s, steps[..n], i) {
      assert SilentAt(s, steps, i);
      assert steps[..n][..i] == steps[..i];
    }
  }

  lemma {:induction false} RunCounting(s: State, steps: seq<Step>, k: nat, e: nat)
    requires Shape(s.op) && Counting(s, k, e) && SilentRun(s, steps)
    ensures Counting(Run(s, steps), k, e)
    decreases |steps|
  {
    if steps != [] {
      var n := |steps| - 1;
      SilentPrefix(s, steps, n);
      RunCounting(s, steps[..n], k, e);
      assert SilentAt(s, steps, n);
      NextCounting(Run(s, steps[..n]), steps[n], k, e);
    }
  }

  /**
   A frame after which nothing comes for the interval: exactly one RX_TIMEOUT, exactly one
   interval after the frame, and none before.
   */
  lemma SilenceTimesOut(s: State, rx: Frame, dev: bool, steps: seq<Step>)
    requires Shape(s.op) && !s.op.flags.rtrFrame && rx.id == s.op.canId && rx.dlc <= MAX_DLC
    requires s.op.ival1 > 0 && !s.op.flags.noAutotimer && !s.op.timerTasklet
    requires SilentRun(Next(s, Frames(rx, dev)), steps)
    ensures var s1 := Next(s, Frames(rx, dev)); var r, e := Run(s1, steps), s.now + s.op.ival1;
      && (r.now > e ==> Timeouts(r.op.log, |s1.op.log|) == [e])
      && (r.now < e ==> Timeouts(r.op.log, |s1.op.log|) == [])
  {
    var s1 := Next(s, Frames(rx, dev));
    FrameRestartsTimeout(s.op, rx, dev, s.now);
    RunCounting(s1, steps, |s1.op.log|, s.now + s.op.ival1);
  }
}
