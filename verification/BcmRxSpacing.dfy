/** Throttling over whole runs: RX_CHANGED messages keep their minimum distance. */
module BcmRxSpacing {
  import opened Options
  import opened BcmFrames
  import opened BcmRx
  import opened BcmRxRuns

  /**
   Of the entries from index k on: RX_CHANGED messages leave at one instant or at
   least the throttle interval apart, in the order they were queued.
   */
  ghost predicate Spaced(log: seq<Notice>, k: nat, gap: nat) {
    forall a, b :: k <= a < b < |log| && log[a].Changed? && log[b].Changed? ==>
      log[b].at == log[a].at || log[b].at >= log[a].at + gap
  }

  /** Every RX_CHANGED from index k on left no later than t. */
  ghost predicate SentBy(log: seq<Notice>, k: nat, t: int) {
    forall a :: k <= a < |log| && log[a].Changed? ==> log[a].at <= t
  }

  /** A message sent at t keeps its distance from all those before it. */
  ghost predicate MaySend(log: seq<Notice>, k: nat, gap: nat, t: int) {
    forall a :: k <= a < |log| && log[a].Changed? ==> log[a].at == t || log[a].at <= t - gap
  }

  /**
   The spacing invariant, for log entries from index k on. With a timer armed,
   everything was sent a full interval before its expiry; a tasklet is pending only
   at an instant at which it may send.
   */
  ghost predicate Paced(s: State, k: nat, gap: nat) {
    var op := s.op;
    && s.now > 0 && op.ival2 == gap && gap > 0 && gap % 1000 == 0
    && op.lastmsg <= s.now && k <= |op.log|
    && Spaced(op.log, k, op.ival2)
    && SentBy(op.log, k, s.now)
    && (op.thrTasklet ==> MaySend(op.log, k, op.ival2, s.now))
    && (op.thr.Some? ==> op.thr.value >= s.now && SentBy(op.log, k, op.thr.value - op.ival2))
    && (op.thr.None? && op.lastmsg != 0 ==> SentBy(op.log, k, op.lastmsg))
    && (op.thr.None? && op.lastmsg == 0 ==> SentBy(op.log, k, s.now - gap))
    && (op.thr.None? && op.thrTasklet ==> op.lastmsg == 0 || op.lastmsg == s.now)
    && (op.thr.Some? && op.thrTasklet ==> op.thr.value >= s.now + op.ival2)
  }

  /** Timers and tasklet are on time: the clock passes neither an expiry nor a pending tasklet. */
  ghost predicate OnTime(s: State, a: Step) {
    a.Tick? ==> !s.op.thrTasklet && (s.op.thr.Some? ==> a.to <= s.op.thr.value)
  }

  /** An RX_SETUP that leaves the throttle alone: no new timer values, no RTR mode. */
  predicate LeavesThrottle(a: Step) {
    a.Configures? ==> !a.msg.flags.setTimer && !a.msg.flags.rtrFrame
  }

  lemma AppendSent(log: seq<Notice>, more: seq<Notice>, k: nat, gap: nat, t: nat)
    requires k <= |log| && Spaced(log, k, gap) && MaySend(log, k, gap, t) && SentBy(log, k, t)
    requires forall i :: 0 <= i < |more| ==> more[i].Changed? && more[i].at == t
    ensures Spaced(log + more, k, gap) && SentBy(log + more, k, t) && MaySend(log + more, k, gap, t)
  {
  }

  lemma UpdatePaces(op: RxOp, i: nat, rx: Frame, now: nat, k: nat, gap: nat)
    requires Paced(State(op, now), k, gap) && i < |op.last|
    ensures Paced(State(UpdateAndSend(op, i, rx, now), now), k, gap)
  {
    var r := UpdateAndSend(op, i, rx, now);
    if op.thr.None? {
      if r.thr.Some? {
        assert now - op.lastmsg < op.ival2;
      } else {
        if op.lastmsg != 0 { assert now - op.lastmsg >= op.ival2; }
        assert MaySend(op.log, k, op.ival2, now);
        AppendSent(op.log, r.log[|op.log|..], k, op.ival2, now);
        assert r.log == op.log + r.log[|op.log|..];
      }
    }
  }

  lemma FilterPaces(op: RxOp, rx: Frame, now: nat, k: nat, gap: nat)
    requires Shape(op) && Paced(State(op, now), k, gap)
    ensures Paced(State(Filter(op, rx, now), now), k, gap)
  {
    var i := Target(op, rx);
    if InRange(op, i) {
      FilterUpdatesTarget(op, rx, now);
      UpdatePaces(op, i, rx, now, k, gap);
    } else {
      assert Filter(op, rx, now) == op;
    }
  }

  /** Only the throttle state and the log matter for pacing. */
  lemma PacedByFields(s: State, s': State, k: nat, gap: nat)
    requires Paced(s, k, gap) && s'.now == s.now
    requires s'.op.ival2 == s.op.ival2 && s'.op.lastmsg == s.op.lastmsg && s'.op.thr == s.op.thr
    requires s'.op.thrTasklet == s.op.thrTasklet
    requires s'.op.log == s.op.log || (exists n: Notice :: !n.Changed? && s'.op.log == s.op.log + [n])
    ensures Paced(s', k, gap)
  {
    if s'.op.log != s.op.log {
      var n: Notice :| !n.Changed? && s'.op.log == s.op.log + [n];
    }
  }

  lemma ArrivePaces(op: RxOp, rx: Frame, dev: bool, now: nat, k: nat, gap: nat)
    requires Shape(op) && Paced(State(op, now), k, gap)
    ensures Paced(State(Arrive(op, rx, dev, now), now), k, gap)
  {
    var op1, r := op.(timer := None), Arrive(op, rx, dev, now);
    PacedByFields(State(op, now), State(op1, now), k, gap);
    if op.canId != rx.id {
    } else if op.flags.rtrFrame {
      if dev { assert r.log == op.log + [Reply(op.frames[0], now)]; }
      PacedByFields(State(op1, now), State(r, now), k, gap);
    } else {
      FilterPaces(op1, rx, now, k, gap);
      PacedByFields(State(Filter(op1, rx, now), now), State(r, now), k, gap);
    }
  }

  lemma FlushPaces(op: RxOp, now: nat, k: nat, gap: nat)
    requires NothingForgotten(op) && Paced(State(op, now), k, gap) && op.thrTasklet
    ensures Paced(State(ThrRun(op, now), now), k, gap)
  {
    var op1, r := op.(thrTasklet := false), ThrRun(op, now);
    FlushEffect(op1, Lo(op), Hi(op), now);
    if op.thr.None? {
      assert forall j :: Lo(op) <= j < Hi(op) && SlotKept(op, j) ==> SlotKept(op1, j);
      NothingToFlush(op1, Lo(op), Hi(op), now);
    }
    AppendSent(op.log, r.log[|op.log|..], k, op.ival2, now);
    assert r.log == op.log + r.log[|op.log|..];
  }

  lemma {:induction false} NothingToFlush(op: RxOp, i: nat, hi: nat, now: nat)
    requires i <= hi <= |op.last| && forall j :: i <= j < hi ==> SlotKept(op, j)
    requires op.thr.None?
    ensures FlushFrom(op, i, hi, now) == op
    decreases hi - i
  {
    if i < hi {
      assert SlotKept(op, i);
      NothingToFlush(op, i + 1, hi, now);
    }
  }

  lemma ExpirePaces(op: RxOp, now: nat, k: nat, gap: nat)
    requires Shape(op) && Paced(State(op, now), k, gap)
    ensures Paced(State(ThrExpire(op, now), now), k, gap)
  {
  }

  /** RX_SETUP outside RTR mode resets the throttle if it sets timers, and else leaves it alone. */
  lemma TimersEffect(op: RxOp, m: Message, now: nat)
    requires Hi(op) <= |op.last|
    ensures var r := ConfigureTimers(op, m, now);
      && r.thrTasklet == op.thrTasklet
      && if m.flags.setTimer then r.ival2 == 1000 * m.ival2Us && r.lastmsg == 0 && r.thr == None
         else r.ival2 == op.ival2 && r.lastmsg == op.lastmsg && r.thr == op.thr && r.log == op.log
  {
  }

  lemma SetupThrottle(op: RxOp, msg: Message, now: nat)
    requires Shape(op) && Complete(msg) && !msg.flags.rtrFrame && Setup(op, msg, now).Ok?
    ensures var r := Setup(op, msg, now).value;
      && r.thrTasklet == op.thrTasklet
      && if msg.flags.setTimer then r.ival2 == 1000 * msg.ival2Us && r.lastmsg == 0 && r.thr == None
         else r.ival2 == op.ival2 && r.lastmsg == op.lastmsg && r.thr == op.thr && r.log == op.log
  {
    var m := Sanitize(msg);
    var op1 := op.(frames := m.frames[..m.nframes] + op.frames[m.nframes..],
                   last := ClearSlots(op.last, m.nframes), nframes := m.nframes, flags := m.flags);
    TimersEffect(op1, m, now);
  }

  lemma NextPaces(s: State, a: Step, k: nat, gap: nat)
    requires NothingForgotten(s.op) && Paced(s, k, gap) && OnTime(s, a) && LeavesThrottle(a)
    ensures Paced(Next(s, a), k, gap)
  {
    var s' := Next(s, a);
    match a
    case Tick(to) =>
    case Frames(rx, dev) => ArrivePaces(s.op, rx, dev, s.now, k, gap);
    case ThrottleExpires => ExpirePaces(s.op, s.now, k, gap);
    case ThrottleTasklet => if s.op.thrTasklet { FlushPaces(s.op, s.now, k, gap); }
    case TimeoutExpires => PacedByFields(s, s', k, gap);
    case TimeoutTasklet =>
      if s.op.timerTasklet { assert s'.op.log == s.op.log + [TimedOut(s.now)]; }
      PacedByFields(s, s', k, gap);
    case Configures(msg) =>
      if Complete(msg) && Setup(s.op, msg, s.now).Ok? { SetupThrottle(s.op, msg, s.now); }
      PacedByFields(s, s', k, gap);
  }

  /** A run all of whose steps are on time and leave the throttle configuration alone. */
  ghost predicate Punctual(s: State, steps: seq<Step>)
    requires Shape(s.op)
  {
    forall i :: 0 <= i < |steps| ==> OnTime(Run(s, steps[..i]), steps[i]) && LeavesThrottle(steps[i])
  }

  lemma {:induction false} RunPaces(s: State, steps: seq<Step>, k: nat, gap: nat)
    requires NothingForgotten(s.op) && Paced(s, k, gap) && Punctual(s, steps)
    ensures NothingForgotten(Run(s, steps).op) && Paced(Run(s, steps), k, gap)
    decreases |steps|
  {
    if steps != [] {
      var init, last := steps[..|steps| - 1], steps[|steps| - 1];
      forall i | 0 <= i < |init| ensures OnTime(Run(s, init[..i]), init[i]) && LeavesThrottle(init[i]) {
        assert init[..i] == steps[..i];
      }
      RunPaces(s, init, k, gap);
      NextPaces(Run(s, init), last, k, gap);
      NextKeeps(Run(s, init), last);
    }
  }

  /** An RX_SETUP for an identifier, whether or not it has an operation yet. */
  function Install(prior: Option<RxOp>, msg: Message, now: nat): Result<RxOp>
    requires Complete(msg) && (prior.Some? ==> Shape(prior.value))
  {
    match prior
    case None => Create(msg, now)
    case Some(op) => Setup(op, msg, now)
  }

  /** Either kind of RX_SETUP that sets a throttle interval starts out paced. */
  lemma InstallPaces(prior: Option<RxOp>, msg: Message, now: nat)
    requires (prior.Some? ==> NothingForgotten(prior.value)) && Complete(msg) && now > 0
    requires Install(prior, msg, now).Ok? && msg.flags.setTimer && !msg.flags.rtrFrame && msg.ival2Us > 0
    ensures var start := Install(prior, msg, now).value;
      NothingForgotten(start) && Paced(State(start, now), |start.log|, 1000 * msg.ival2Us)
  {
    match prior
    case None =>
      NoUpdateForgotten(msg, now, []);
      var m := Sanitize(msg);
      TimersEffect(NewOp(m).(flags := m.flags), m, now);
    case Some(op) =>
      SetupThrottle(op, msg, now);
      SetupKeeps(op, msg, now);
  }

  /**
   Throttle spacing. From an RX_SETUP, the first for its identifier or a later one, that
   sets a throttle interval, through any run of frames, timeouts and further RX_SETUPs that
   keep the timers, with the throttle timer and its tasklet on time: any two RX_CHANGED
   messages carry the same instant or lie at least the interval apart.
   */
  lemma {:induction false} ThrottleSpacing(prior: Option<RxOp>, msg: Message, now: nat, steps: seq<Step>)
    requires (prior.Some? ==> NothingForgotten(prior.value)) && Complete(msg) && now > 0
    requires Install(prior, msg, now).Ok? && msg.flags.setTimer && !msg.flags.rtrFrame && msg.ival2Us > 0
    requires Punctual(State(Install(prior, msg, now).value, now), steps)
    ensures var start := Install(prior, msg, now).value;
      Spaced(Run(State(start, now), steps).op.log, |start.log|, 1000 * msg.ival2Us)
  {
    var start := Install(prior, msg, now).value;
    InstallPaces(prior, msg, now);
    RunPaces(State(start, now), steps, |start.log|, 1000 * msg.ival2Us);
  }
}
