/**
 When RX_CHANGED messages leave: at once if nothing holds them back, and otherwise exactly
 one interval after the last one.
 */
module BcmRxPromptness {
  import opened Options
  import opened BcmFrames
  import opened BcmRx
  import opened BcmRxRuns
  import opened BcmRxSpacing

  /** Nothing holds a message back: there is no throttling, or no timer runs and the last message is an interval ago. */
  predicate MayLeave(op: RxOp, now: nat) {
    || op.ival2 == 0
    || (op.thr.None? && (op.lastmsg == 0 || (op.lastmsg <= now && op.ival2 / 1000 <= (now - op.lastmsg) / 1000)))
  }

  /**
   A new content leaves at once exactly if it may, and then it is what the slot holds.
   Otherwise it is kept, under the timer that runs or one that ends an interval after the last message.
   */
  lemma LeavesAtOnceIff(op: RxOp, i: nat, rx: Frame, now: nat)
    requires i < |op.last| && rx.dlc <= MAX_DLC && op.lastmsg <= now
    ensures var r := UpdateAndSend(op, i, rx, now);
      && (r.log == op.log + [Changed(i, rx, now)] <==> MayLeave(op, now))
      && Strip(r.last[i]) == rx && (Throttled(r.last[i]) <==> !MayLeave(op, now))
      && (forall j :: 0 <= j < |op.last| && j != i ==> r.last[j] == op.last[j])
      && (MayLeave(op, now) ==> r.thr == op.thr && (op.ival2 > 0 ==> r.lastmsg == now))
      && (!MayLeave(op, now) ==> r.log == op.log && r.lastmsg == op.lastmsg)
      && (!MayLeave(op, now) ==> r.thr == (if op.thr.Some? then op.thr else Some(op.lastmsg + op.ival2)))
  {
    StatusBits(rx);
    StatusBits(MarkNew(rx));
  }

  // ---------- the first message ----------

  /** No RX_CHANGED from index k on. */
  ghost predicate Quiet(log: seq<Notice>, k: nat) {
    forall j :: k <= j < |log| ==> !log[j].Changed?
  }

  lemma QuietBefore(log: seq<Notice>, log': seq<Notice>, k: nat)
    requires log <= log' && Quiet(log', k)
    ensures Quiet(log, k)
  {
    forall j | k <= j < |log| ensures !log[j].Changed? { assert log'[j] == log[j]; }
  }

  /** Until the first message nothing holds one back. */
  ghost predicate Unheld(op: RxOp, k: nat) {
    k <= |op.log| && (Quiet(op.log, k) ==> op.thr.None? && op.lastmsg == 0)
  }

  lemma FilterUnheld(op: RxOp, rx: Frame, now: nat, k: nat)
    requires Shape(op) && Unheld(op, k)
    ensures Unheld(Filter(op, rx, now), k)
  {
    var r := Filter(op, rx, now);
    var i := Target(op, rx);
    if InRange(op, i) {
      FilterUpdatesTarget(op, rx, now);
      if r != op { UpdateUnheld(op, i, rx, now, k); }
    } else {
      assert r == op;
    }
  }

  lemma UpdateUnheld(op: RxOp, i: nat, rx: Frame, now: nat, k: nat)
    requires i < |op.last| && Unheld(op, k)
    ensures Unheld(UpdateAndSend(op, i, rx, now), k)
  {
    var r := UpdateAndSend(op, i, rx, now);
    assert |r.log| > |op.log| ==> r.log[|op.log|].Changed?;
    if Quiet(r.log, k) { QuietBefore(op.log, r.log, k); }
  }

  lemma ArriveUnheld(op: RxOp, rx: Frame, dev: bool, now: nat, k: nat)
    requires Shape(op) && Unheld(op, k)
    ensures Unheld(Arrive(op, rx, dev, now), k)
  {
    var op1, r := op.(timer := None), Arrive(op, rx, dev, now);
    if op.canId == rx.id && !op.flags.rtrFrame {
      FilterUnheld(op1, rx, now, k);
    } else if Quiet(r.log, k) {
      QuietBefore(op.log, r.log, k);
    }
  }

  lemma NextUnheld(s: State, a: Step, k: nat)
    requires Shape(s.op) && Unheld(s.op, k) && LeavesThrottle(a)
    ensures Unheld(Next(s, a).op, k)
  {
    var r := Next(s, a).op;
    match a
    case Frames(rx, dev) => ArriveUnheld(s.op, rx, dev, s.now, k);
    case ThrottleTasklet =>
      FlushEffect(s.op.(thrTasklet := false), Lo(s.op), Hi(s.op), s.now);
      if Quiet(r.log, k) { QuietBefore(s.op.log, r.log, k); }
    case Configures(msg) =>
      if Complete(msg) && Setup(s.op, msg, s.now).Ok? { SetupThrottle(s.op, msg, s.now); }
    case _ => if Quiet(r.log, k) { QuietBefore(s.op.log, r.log, k); }
  }

  lemma {:induction false} RunUnheld(s: State, steps: seq<Step>, k: nat)
    requires Shape(s.op) && Unheld(s.op, k) && forall i :: 0 <= i < |steps| ==> LeavesThrottle(steps[i])
    ensures Unheld(Run(s, steps).op, k)
    decreases |steps|
  {
    if steps != [] {
      RunUnheld(s, steps[..|steps| - 1], k);
      NextUnheld(Run(s, steps[..|steps| - 1]), steps[|steps| - 1], k);
    }
  }

  /** The frame passes the operation's filter: its slot has no content, or it differs where the operation looks. */
  predicate Passes(op: RxOp, rx: Frame)
    requires Shape(op)
  {
    op.canId == rx.id && !op.flags.rtrFrame && rx.dlc <= MAX_DLC && InRange(op, Target(op, rx)) &&
    (op.flags.filterId || Relevant(op, Target(op, rx), rx))
  }

  lemma PassesUpdates(op: RxOp, rx: Frame, dev: bool, now: nat)
    requires Shape(op) && Passes(op, rx)
    ensures var op1, r := op.(timer := None), Arrive(op, rx, dev, now);
      var u := UpdateAndSend(op1, Target(op, rx), rx, now);
      r.log == u.log && r.last == u.last && r.thr == u.thr && r.lastmsg == u.lastmsg
  {
    var op1 := op.(timer := None);
    assert Target(op1, rx) == Target(op, rx);
    FilterUpdatesTarget(op1, rx, now);
  }

  lemma FirstAfter(start: State, steps: seq<Step>, rx: Frame, dev: bool)
    requires Shape(start.op) && Unheld(start.op, |start.op.log|)
    requires forall i :: 0 <= i < |steps| ==> LeavesThrottle(steps[i])
    requires var s := Run(start, steps); Quiet(s.op.log, |start.op.log|) && Passes(s.op, rx)
    ensures var s := Run(start, steps);
      Next(s, Frames(rx, dev)).op.log == s.op.log + [Changed(Target(s.op, rx), rx, s.now)]
  {
    RunUnheld(start, steps, |start.op.log|);
    var s := Run(start, steps);
    PassesUpdates(s.op, rx, dev, s.now);
    LeavesAtOnceIff(s.op.(timer := None), Target(s.op, rx), rx, s.now);
  }

  /**
   After an RX_SETUP that sets the timers, the first for its identifier or a later one, and
   whatever happened since: the first frame that passes the filter is handed on when it
   arrives.
   */
  lemma FirstIsSentAtOnce(prior: Option<RxOp>, msg: Message, now: nat, steps: seq<Step>, rx: Frame, dev: bool)
    requires (prior.Some? ==> Shape(prior.value)) && Complete(msg)
    requires Install(prior, msg, now).Ok? && msg.flags.setTimer && !msg.flags.rtrFrame
    requires forall i :: 0 <= i < |steps| ==> LeavesThrottle(steps[i])
    requires var start := State(Install(prior, msg, now).value, now);
      var s := Run(start, steps); Quiet(s.op.log, |start.op.log|) && Passes(s.op, rx)
    ensures var s := Run(State(Install(prior, msg, now).value, now), steps);
      Next(s, Frames(rx, dev)).op.log == s.op.log + [Changed(Target(s.op, rx), rx, s.now)]
  {
    InstallIsUnheld(prior, msg, now);
    FirstAfter(State(Install(prior, msg, now).value, now), steps, rx, dev);
  }

  lemma InstallIsUnheld(prior: Option<RxOp>, msg: Message, now: nat)
    requires (prior.Some? ==> Shape(prior.value)) && Complete(msg)
    requires Install(prior, msg, now).Ok? && msg.flags.setTimer && !msg.flags.rtrFrame
    ensures var start := Install(prior, msg, now).value; Unheld(start, |start.log|)
  {
    match prior
    case None =>
      var m := Sanitize(msg);
      TimersEffect(NewOp(m).(flags := m.flags), m, now);
    case Some(op) => SetupThrottle(op, msg, now);
  }

  // ---------- the messages after it ----------

  /** An RX_CHANGED at time t, from index k on. */
  ghost predicate MessageAt(log: seq<Notice>, k: nat, t: int) {
    exists j :: k <= j < |log| && log[j].Changed? && log[j].at == t
  }

  /** One for slot i. */
  ghost predicate Told(log: seq<Notice>, k: nat, i: nat, t: int) {
    exists j :: k <= j < |log| && log[j].Changed? && log[j].slot == i && log[j].at == t
  }

  lemma {:induction false} FlushTells(op: RxOp, i: nat, hi: nat, now: nat, j: nat)
    requires i <= j < hi <= |op.last| && Throttled(op.last[j])
    ensures var r := FlushFrom(op, i, hi, now); op.log <= r.log && Told(r.log, |op.log|, j, now)
    decreases hi - i
  {
    var op1 := FlushSlot(op, i, now);
    FlushEffect(op1, i + 1, hi, now);
    if i == j {
      assert FlushFrom(op, i, hi, now).log[|op.log|] == Changed(j, Strip(ClearThrottle(op.last[j])), now);
    } else {
      FlushTells(op1, i + 1, hi, now, j);
    }
  }

  ghost predicate SomeThrottled(op: RxOp)
    requires Shape(op)
  {
    exists i: nat :: InRange(op, i) && Throttled(op.last[i])
  }

  /** An armed timer ends an interval after a message, or after the one that the pending tasklet is about to send. */
  ghost predicate Regular(s: State, k: nat, gap: nat)
    requires Shape(s.op)
  {
    var op := s.op;
    && k <= |op.log|
    && (op.thr.Some? ==>
          MessageAt(op.log, k, op.thr.value - gap) ||
          (op.thrTasklet && op.thr.value == s.now + gap && SomeThrottled(op)))
    && (op.thr.None? && op.lastmsg != 0 ==> MessageAt(op.log, k, op.lastmsg))
  }

  /** The step does not clear a slot. */
  predicate Keeps(a: Step, resume: bool) { !a.Configures? && (a.TimeoutExpires? ==> !resume) }

  lemma Longer(log: seq<Notice>, log': seq<Notice>, k: nat, t: int)
    requires log <= log' && MessageAt(log, k, t)
    ensures MessageAt(log', k, t)
  {
    var j :| k <= j < |log| && log[j].Changed? && log[j].at == t;
    assert log'[j] == log[j];
  }

  lemma LongerTold(log: seq<Notice>, log': seq<Notice>, k: nat, i: nat, t: int)
    requires log <= log' && Told(log, k, i, t)
    ensures Told(log', k, i, t)
  {
    var j :| k <= j < |log| && log[j].Changed? && log[j].slot == i && log[j].at == t;
    assert log'[j] == log[j];
  }

  /** What the steps do to the throttle state, in the terms used here. */
  ghost predicate Grows(op: RxOp, r: RxOp)
    requires Shape(op) && Shape(r)
  {
    && op.log <= r.log && r.ival2 == op.ival2 && r.thrTasklet == op.thrTasklet && r.flags == op.flags
    && r.nframes == op.nframes && |r.last| == |op.last|
  }

  /** A stored frame: everything held stays held while a timer runs; without one it is sent or starts one. */
  ghost predicate Stores(op: RxOp, r: RxOp, now: nat)
    requires Shape(op) && Shape(r)
  {
    && Grows(op, r)
    && (op.thr.Some? ==> r.thr == op.thr && r.log == op.log && forall j: nat :: InRange(op, j) && Throttled(op.last[j]) ==> Throttled(r.last[j]))
    && (op.thr.None? ==>
          || (r.thr.None? && r.lastmsg == op.lastmsg)
          || (r.thr.None? && MessageAt(r.log, |op.log|, now) && r.lastmsg == now)
          || (r.thr == Some(op.lastmsg + op.ival2) && op.lastmsg != 0))
  }

  lemma UpdateStores(op: RxOp, i: nat, rx: Frame, now: nat)
    requires Shape(op) && InRange(op, i) && op.ival2 > 0
    ensures Stores(op, UpdateAndSend(op, i, rx, now), now)
  {
    StatusBits(rx);
    var r := UpdateAndSend(op, i, rx, now);
    if op.thr.None? && r.thr.None? { assert r.log[|op.log|].Changed? && r.log[|op.log|].at == now; }
  }

  lemma ArriveStores(op: RxOp, rx: Frame, dev: bool, now: nat)
    requires Shape(op) && op.ival2 > 0 && !op.flags.rtrFrame
    ensures Stores(op, Arrive(op, rx, dev, now), now)
  {
    var op1 := op.(timer := None);
    var i := Target(op1, rx);
    if op.canId == rx.id {
      if InRange(op1, i) {
        FilterUpdatesTarget(op1, rx, now);
        UpdateStores(op1, i, rx, now);
      } else {
        assert Filter(op1, rx, now) == op1;
      }
    }
  }

  lemma ArriveRegular(s: State, rx: Frame, dev: bool, k: nat, gap: nat)
    requires Shape(s.op) && Regular(s, k, gap) && s.op.ival2 == gap > 0 && !s.op.flags.rtrFrame
    ensures Regular(s.(op := Arrive(s.op, rx, dev, s.now)), k, gap)
  {
    var r := Arrive(s.op, rx, dev, s.now);
    ArriveStores(s.op, rx, dev, s.now);
    if s.op.thr.Some? {
      if MessageAt(s.op.log, k, s.op.thr.value - gap) {
        Longer(s.op.log, r.log, k, s.op.thr.value - gap);
      } else {
        var i: nat :| InRange(s.op, i) && Throttled(s.op.last[i]);
        assert InRange(r, i) && Throttled(r.last[i]);
      }
    } else if s.op.lastmsg != 0 {
      Longer(s.op.log, r.log, k, s.op.lastmsg);
    }
  }

  lemma ExpireRegular(s: State, k: nat, gap: nat)
    requires Shape(s.op) && Regular(s, k, gap) && s.op.ival2 == gap > 0 && (s.op.thr.Some? ==> s.op.thr.value >= s.now)
    ensures Regular(s.(op := ThrExpire(s.op, s.now)), k, gap)
  {
    var op, r := s.op, ThrExpire(s.op, s.now);
    if op.thr.Some? && s.now >= op.thr.value && CountThrottled(op.last, Lo(op), Hi(op)) > 0 {
      var i: nat :| Lo(op) <= i < Hi(op) && Throttled(op.last[i]);
      assert InRange(r, i) && Throttled(r.last[i]);
    }
  }

  lemma FlushRegular(s: State, k: nat, gap: nat)
    requires Shape(s.op) && Regular(s, k, gap) && s.op.thrTasklet
    ensures Regular(s.(op := ThrRun(s.op, s.now)), k, gap)
  {
    var op1, r := s.op.(thrTasklet := false), ThrRun(s.op, s.now);
    FlushEffect(op1, Lo(op1), Hi(op1), s.now);
    if s.op.thr.Some? {
      if MessageAt(s.op.log, k, s.op.thr.value - gap) {
        Longer(s.op.log, r.log, k, s.op.thr.value - gap);
      } else {
        var i: nat :| InRange(s.op, i) && Throttled(s.op.last[i]);
        FlushTells(op1, Lo(op1), Hi(op1), s.now, i);
      }
    } else if s.op.lastmsg != 0 {
      Longer(s.op.log, r.log, k, s.op.lastmsg);
    }
  }

  lemma NextRegular(s: State, a: Step, k: nat, gap: nat)
    requires NothingForgotten(s.op) && Paced(s, k, gap) && Regular(s, k, gap) && OnTime(s, a)
    requires Keeps(a, s.op.flags.announceResume) && !s.op.flags.rtrFrame
    ensures Regular(Next(s, a), k, gap)
  {
    match a
    case Frames(rx, dev) => if rx.dlc <= MAX_DLC { ArriveRegular(s, rx, dev, k, gap); }
    case ThrottleExpires => ExpireRegular(s, k, gap);
    case ThrottleTasklet => if s.op.thrTasklet { FlushRegular(s, k, gap); }
    case Tick(_) => OtherRegular(s, Next(s, a), k, gap);
    case TimeoutExpires => OtherRegular(s, Next(s, a), k, gap);
    case TimeoutTasklet => OtherRegular(s, Next(s, a), k, gap);
  }

  lemma OtherRegular(s: State, r: State, k: nat, gap: nat)
    requires Shape(s.op) && Shape(r.op) && Regular(s, k, gap) && Grows(s.op, r.op) && r.op.last == s.op.last
    requires r.op.thr == s.op.thr && r.op.lastmsg == s.op.lastmsg && (s.op.thrTasklet ==> r.now == s.now)
    ensures Regular(r, k, gap)
  {
    if s.op.thr.Some? {
      if MessageAt(s.op.log, k, s.op.thr.value - gap) {
        Longer(s.op.log, r.op.log, k, s.op.thr.value - gap);
      } else {
        var i: nat :| InRange(s.op, i) && Throttled(s.op.last[i]);
        assert InRange(r.op, i) && Throttled(r.op.last[i]);
      }
    } else if s.op.lastmsg != 0 {
      Longer(s.op.log, r.op.log, k, s.op.lastmsg);
    }
  }

  /** An RX_CHANGED for slot i leaves at `due`: it has left, the pending tasklet sends it, or the timer ends then. */
  ghost predicate InTime(s: State, n: nat, i: nat, due: nat) {
    || Told(s.op.log, n, i, due)
    || (i < |s.op.last| && Throttled(s.op.last[i]) && InRange(s.op, i) && n <= |s.op.log| &&
        if s.op.thrTasklet then s.now == due else s.op.thr == Some(due) && s.now <= due)
  }

  lemma FlushInTime(s: State, n: nat, i: nat, due: nat)
    requires Shape(s.op) && s.op.thrTasklet && InTime(s, n, i, due) && !Told(s.op.log, n, i, due)
    ensures Told(ThrRun(s.op, s.now).log, n, i, due)
  {
    var op1, r := s.op.(thrTasklet := false), ThrRun(s.op, s.now);
    FlushTells(op1, Lo(op1), Hi(op1), s.now, i);
    var j :| |op1.log| <= j < |r.log| && r.log[j].Changed? && r.log[j].slot == i && r.log[j].at == s.now;
  }

  lemma NextInTime(s: State, a: Step, k: nat, gap: nat, n: nat, i: nat, due: nat)
    requires NothingForgotten(s.op) && Paced(s, k, gap) && OnTime(s, a) && InTime(s, n, i, due)
    requires Keeps(a, s.op.flags.announceResume) && !s.op.flags.rtrFrame
    ensures InTime(Next(s, a), n, i, due)
  {
    var r := Next(s, a);
    if Told(s.op.log, n, i, due) {
      NextAppends(s, a);
      LongerTold(s.op.log, r.op.log, n, i, due);
    } else {
      assert SlotKept(s.op, i);
      match a
      case Frames(rx, dev) => ArriveStores(s.op, rx, dev, s.now);
      case ThrottleTasklet => if s.op.thrTasklet { FlushInTime(s, n, i, due); }
      case Tick(_) =>
      case ThrottleExpires =>
      case TimeoutExpires =>
      case TimeoutTasklet =>
    }
  }

  lemma NextAppends(s: State, a: Step)
    requires Shape(s.op) && s.op.ival2 > 0 && !s.op.flags.rtrFrame && !a.Configures?
    ensures s.op.log <= Next(s, a).op.log && Next(s, a).op.flags == s.op.flags
  {
    match a
    case Frames(rx, dev) => ArriveStores(s.op, rx, dev, s.now);
    case ThrottleTasklet => FlushEffect(s.op.(thrTasklet := false), Lo(s.op), Hi(s.op), s.now);
    case Tick(_) =>
    case ThrottleExpires =>
    case TimeoutExpires =>
    case TimeoutTasklet =>
  }

  /** No step of the run clears a slot. */
  ghost predicate AllKeep(steps: seq<Step>, resume: bool) {
    forall i :: 0 <= i < |steps| ==> Keeps(steps[i], resume)
  }

  lemma PunctualPrefix(s: State, steps: seq<Step>, n: nat)
    requires Shape(s.op) && Punctual(s, steps) && n <= |steps|
    ensures Punctual(s, steps[..n])
  {
    forall i | 0 <= i < n ensures OnTime(Run(s, steps[..n][..i]), steps[..n][i]) && LeavesThrottle(steps[..n][i]) {
      assert steps[..n][..i] == steps[..i];
    }
  }

  lemma {:induction false} RunRegular(s: State, steps: seq<Step>, k: nat, gap: nat)
    requires NothingForgotten(s.op) && Paced(s, k, gap) && Regular(s, k, gap) && Punctual(s, steps)
    requires AllKeep(steps, s.op.flags.announceResume) && !s.op.flags.rtrFrame
    ensures var r := Run(s, steps);
      NothingForgotten(r.op) && Paced(r, k, gap) && Regular(r, k, gap) && r.op.flags == s.op.flags
    decreases |steps|
  {
    RunPaces(s, steps, k, gap);
    if steps != [] {
      var n := |steps| - 1;
      PunctualPrefix(s, steps, n);
      RunPaces(s, steps[..n], k, gap);
      RunRegular(s, steps[..n], k, gap);
      NextRegular(Run(s, steps[..n]), steps[n], k, gap);
      NextAppends(Run(s, steps[..n]), steps[n]);
    }
  }

  lemma {:induction false} RunInTime(s: State, steps: seq<Step>, k: nat, gap: nat, n: nat, since: nat, i: nat, due: nat)
    requires NothingForgotten(s.op) && Paced(s, k, gap) && Regular(s, k, gap) && Punctual(s, steps)
    requires AllKeep(steps, s.op.flags.announceResume) && !s.op.flags.rtrFrame
    requires n <= |steps| && InTime(Run(s, steps[..n]), since, i, due)
    ensures InTime(Run(s, steps), since, i, due)
    decreases |steps|
  {
    if n == |steps| {
      assert steps[..n] == steps;
    } else {
      var m := |steps| - 1;
      PunctualPrefix(s, steps, m);
      assert steps[..m][..n] == steps[..n];
      RunInTime(s, steps[..m], k, gap, n, since, i, due);
      RunRegular(s, steps[..m], k, gap);
      NextInTime(Run(s, steps[..m]), steps[m], k, gap, since, i, due);
    }
  }

  /** The latest RX_CHANGED from index k on left at t. */
  ghost predicate Latest(log: seq<Notice>, k: nat, t: int) {
    MessageAt(log, k, t) && SentBy(log, k, t)
  }

  /** The instant at which held content is to leave. */
  function Due(s: State): nat
    requires s.op.thr.Some?
  {
    if s.op.thrTasklet then s.now else s.op.thr.value
  }

  lemma HeldIsInTime(s: State, k: nat, gap: nat, i: nat)
    requires NothingForgotten(s.op) && Paced(s, k, gap) && Regular(s, k, gap)
    requires InRange(s.op, i) && Throttled(s.op.last[i])
    ensures s.op.thr.Some? && InTime(s, |s.op.log|, i, Due(s))
    ensures s.now <= Due(s) <= s.now + gap
    ensures !s.op.thrTasklet ==> Latest(s.op.log, k, Due(s) - gap)
  {
    assert SlotKept(s.op, i);
  }

  /** A start from which throttled runs are followed. */
  ghost predicate ThrottledStart(start: State, msg: Message, k: nat) {
    && NothingForgotten(start.op) && Paced(start, k, 1000 * msg.ival2Us) && Regular(start, k, 1000 * msg.ival2Us)
    && !start.op.flags.rtrFrame && start.op.flags.announceResume == msg.flags.announceResume
    && k == |start.op.log|
  }

  lemma InstallStarts(prior: Option<RxOp>, msg: Message, now: nat)
    requires (prior.Some? ==> NothingForgotten(prior.value)) && Complete(msg) && now > 0
    requires Install(prior, msg, now).Ok? && msg.flags.setTimer && !msg.flags.rtrFrame && msg.ival2Us > 0
    ensures var start := Install(prior, msg, now).value; ThrottledStart(State(start, now), msg, |start.log|)
  {
    InstallPaces(prior, msg, now);
    InstallIsUnheld(prior, msg, now);
  }

  /**
   Held content leaves on time. In a punctual run from an RX_SETUP that sets a throttle
   interval, with no step that clears slots, a slot that holds unsent content is told to the
   user exactly one interval after the latest message or, if the tasklet is already pending,
   at the present instant: the clock does not pass that time before it is.
   */
  lemma HeldLeavesOnTime(prior: Option<RxOp>, msg: Message, now: nat, steps: seq<Step>, n: nat, i: nat)
    requires (prior.Some? ==> NothingForgotten(prior.value)) && Complete(msg) && now > 0
    requires Install(prior, msg, now).Ok? && msg.flags.setTimer && !msg.flags.rtrFrame && msg.ival2Us > 0
    requires Punctual(State(Install(prior, msg, now).value, now), steps) && AllKeep(steps, msg.flags.announceResume)
    requires n <= |steps|
    requires var s := Run(State(Install(prior, msg, now).value, now), steps[..n]);
      InRange(s.op, i) && Throttled(s.op.last[i])
    ensures var start := State(Install(prior, msg, now).value, now);
      var s, r, gap := Run(start, steps[..n]), Run(start, steps), 1000 * msg.ival2Us;
      && s.op.thr.Some?
      && (!s.op.thrTasklet ==> Latest(s.op.log, |start.op.log|, Due(s) - gap))
      && s.now <= Due(s) <= s.now + gap
      && (r.now > Due(s) ==> Told(r.op.log, |s.op.log|, i, Due(s)))
  {
    var start := State(Install(prior, msg, now).value, now);
    InstallStarts(prior, msg, now);
    HeldInRun(start, msg, steps, n, i);
  }

  lemma HeldInRun(start: State, msg: Message, steps: seq<Step>, n: nat, i: nat)
    requires ThrottledStart(start, msg, |start.op.log|)
    requires Punctual(start, steps) && AllKeep(steps, msg.flags.announceResume) && n <= |steps|
    requires var s := Run(start, steps[..n]); InRange(s.op, i) && Throttled(s.op.last[i])
    ensures var s, r, gap := Run(start, steps[..n]), Run(start, steps), 1000 * msg.ival2Us;
      && s.op.thr.Some?
      && (!s.op.thrTasklet ==> Latest(s.op.log, |start.op.log|, Due(s) - gap))
      && s.now <= Due(s) <= s.now + gap
      && (r.now > Due(s) ==> Told(r.op.log, |s.op.log|, i, Due(s)))
  {
    var k, gap := |start.op.log|, 1000 * msg.ival2Us;
    var s := Run(start, steps[..n]);
    PunctualPrefix(start, steps, n);
    RunRegular(start, steps[..n], k, gap);
    HeldIsInTime(s, k, gap, i);
    RunInTime(start, steps, k, gap, n, |s.op.log|, i, Due(s));
  }
}
