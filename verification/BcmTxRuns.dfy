/** Exact transmit counts, the order and the times of cyclic frames. */
module BcmTxRuns {
  import opened Options
  import opened BcmFrames
  import opened Words
  import opened BcmTx

  function Max(a: int, b: int): int { if a < b then b else a }

  /** What a TX_SETUP with timer values started: first index, count, and the log sizes before it. */
  datatype Cycle = Cycle(first: nat, count: nat, sentBefore: nat, expiredBefore: nat)

  function SentIn(op: TxOp, c: Cycle): int { |op.sent| - c.sentBefore }

  /** The frames sent in a cycle are the operation's frames in rotation, from the first index on. */
  ghost predicate InOrder(op: TxOp, c: Cycle) {
    var n := SentIn(op, c);
    && Shape(op) && n >= 0
    && op.currframe == (c.first + n) % op.nframes
    && forall j :: c.sentBefore <= j < |op.sent| ==>
         op.sent[j].frame == op.frames[(c.first + j - c.sentBefore) % op.nframes]
  }

  /** Counts of a cycle; this holds however late timers and tasklets are. */
  ghost predicate Counted(op: TxOp, c: Cycle) {
    var n := SentIn(op, c);
    && op.ival1 > 0 && n >= 1
    && (op.count > 0 ==> c.count == n + op.count)
    && (op.count == 0 ==> n >= Max(1, c.count))
    && (op.count == 0 && op.ival2 == 0 ==> n == Max(1, c.count))
    && |op.expired| == c.expiredBefore +
         if op.flags.countEvt && c.count >= 2 && op.count == 0 then 1 else 0
  }

  lemma NextIndex(i: nat, m: nat)
    requires m > 0
    ensures (if i % m + 1 >= m then 0 else i % m + 1) == (i + 1) % m
  {
    var q, cur := i / m, i % m;
    if cur + 1 >= m {
      assert i + 1 == m * (q + 1);
      ModUnique(i + 1, m, q + 1, 0);
    } else {
      ModUnique(i + 1, m, q, cur + 1);
    }
  }

  lemma ModUnique(a: nat, m: nat, q: int, r: nat)
    requires m > 0 && a == m * q + r && r < m
    ensures a % m == r
  {
    var d := a / m - q;
    assert m * d == r - a % m;
  }

  lemma SendKeepsOrder(op: TxOp, c: Cycle, now: nat)
    requires InOrder(op, c)
    ensures InOrder(CanTx(op, true, now), c)
  {
    NextIndex(c.first + SentIn(op, c), op.nframes);
  }

  lemma TaskletCounts(op: TxOp, c: Cycle, now: nat)
    requires InOrder(op, c) && Counted(op, c)
    ensures var r := Tasklet(op, true, now);
      && InOrder(r, c) && Counted(r, c)
      && SentIn(r, c) == SentIn(op, c) + if op.tasklet && (op.count > 0 || op.ival2 > 0) then 1 else 0
  {
    if op.tasklet {
      var op1 := op.(tasklet := false);
      if op.count > 0 { op1 := CountDown(op1, now); }
      assert InOrder(op1, c);
      SendKeepsOrder(op1, c, now);
    }
  }

  // ---------- the cycle a TX_SETUP starts ----------

  /** A TX_SETUP that sets and starts the timers, with a first interval. */
  predicate StartsCycle(m: Message) {
    m.flags.setTimer && m.flags.startTimer && m.ival1Us > 0
  }

  function CycleOf(op: TxOp, m: Message): Cycle {
    var restart := op.nframes != |m.frames| || m.flags.resetMultiIdx;
    Cycle(if restart then 0 else op.currframe, m.count, |op.sent|, |op.expired|)
  }

  /** An operation, existing or new, that holds the frames of an accepted message. */
  ghost predicate Ready(op: TxOp, m: Message) {
    && Sized(m) && |m.frames| <= |op.frames|
    && (op.nframes == |m.frames| ==> op.currframe < op.nframes)
  }

  /** The state an accepted TX_SETUP leaves behind. */
  function Started(op: TxOp, m: Message, now: nat): State
    requires Ready(op, m)
  {
    State(Launch(Adopt(op, m), true, now), now)
  }

  /** Both kinds of TX_SETUP end that way, or are refused. */
  lemma SetupsAreStarted(op: TxOp, m: Message, now: nat)
    requires Shape(op)
    ensures Setup(op, m, true, now).Done? ==>
      var op1 := op.(frames := CopyFrames(op.frames, m, 0).0);
      Ready(op1, m) && CycleOf(op1, m) == CycleOf(op, m) && Setup(op, m, true, now).op == Started(op1, m, now).op
    ensures Create(m, true, now).Some? ==>
      var op1 := NewOp(m).(frames := CopyFrames(NewOp(m).frames, m, 0).0);
      Ready(op1, m) && CycleOf(op1, m) == Cycle(0, m.count, 0, 0) && Create(m, true, now).value == Started(op1, m, now).op
  {
  }

  lemma SetupStarts(op: TxOp, m: Message, now: nat)
    requires Ready(op, m) && StartsCycle(m)
    ensures var r := Started(op, m, now).op;
      && InOrder(r, CycleOf(op, m)) && Counted(r, CycleOf(op, m))
      && SentIn(r, CycleOf(op, m)) == 1
      && r.ival2 == 1000 * m.ival2Us && r.flags.countEvt == m.flags.countEvt
  {
    var op1 := Adopt(op, m);
    var op2 := op1.(timer := None, flags := op1.flags.(announce := true));
    SmallIndex(op2.currframe, op2.nframes);
    SendKeepsOrder(op2, CycleOf(op, m), now);
  }

  lemma SmallIndex(i: nat, m: nat)
    requires i < m
    ensures i % m == i
  {
    ModUnique(i, m, 0, i);
  }

  lemma NextCounts(s: State, a: Step, c: Cycle)
    requires InOrder(s.op, c) && Counted(s.op, c) && !a.Configures? && (a.Runs? ==> a.dev)
    ensures InOrder(Next(s, a).op, c) && Counted(Next(s, a).op, c)
    ensures Next(s, a).op.ival2 == s.op.ival2 && Next(s, a).op.flags == s.op.flags
  {
    if a.Runs? { TaskletCounts(s.op, c, s.now); }
  }

  /** No further TX_SETUP, and every send finds the device. */
  ghost predicate Undisturbed(steps: seq<Step>) {
    forall i :: 0 <= i < |steps| ==> !steps[i].Configures? && (steps[i].Runs? ==> steps[i].dev)
  }

  /**
   Exact transmit counts. After a TX_SETUP that starts a cycle of count c, in every run
   and however late its timers and tasklets come: while the count is not used up, the
   frames sent and the count left add up to c; when it is used up at least max(1, c)
   frames were sent, and no more than that unless there is a second interval; TX_EXPIRED
   was queued exactly once by then if it was asked for and c >= 2, and never otherwise;
   and the k-th frame is the operation's frame (first + k) mod nframes.
   */
  lemma {:induction false} CycleCounts(op: TxOp, m: Message, now: nat, steps: seq<Step>)
    requires Ready(op, m) && StartsCycle(m) && Undisturbed(steps)
    ensures var r := Run(Started(op, m, now), steps).op;
      && InOrder(r, CycleOf(op, m)) && Counted(r, CycleOf(op, m))
      && r.ival2 == 1000 * m.ival2Us && r.flags.countEvt == m.flags.countEvt
    decreases |steps|
  {
    if steps == [] {
      SetupStarts(op, m, now);
    } else {
      var init, last := steps[..|steps| - 1], steps[|steps| - 1];
      CycleCounts(op, m, now, init);
      NextCounts(Run(Started(op, m, now), init), last, CycleOf(op, m));
    }
  }

  /** The tick that uses up the count sends the last frame of the first phase. */
  lemma {:induction false} LastCountedTick(op: TxOp, m: Message, now: nat, steps: seq<Step>)
    requires Ready(op, m) && StartsCycle(m) && Undisturbed(steps) && steps != []
    requires Run(Started(op, m, now), steps[..|steps| - 1]).op.count > 0 && Run(Started(op, m, now), steps).op.count == 0
    ensures SentIn(Run(Started(op, m, now), steps).op, CycleOf(op, m)) == m.count
  {
    var init, last := steps[..|steps| - 1], steps[|steps| - 1];
    CycleCounts(op, m, now, init);
    var s := Run(Started(op, m, now), init);
    if last.Runs? { TaskletCounts(s.op, CycleOf(op, m), s.now); }
  }

  /** The frames a run has sent by its k-th step. */
  function SentBy(op: TxOp, m: Message, now: nat, steps: seq<Step>, k: nat): int
    requires Ready(op, m) && k <= |steps|
  {
    SentIn(Run(Started(op, m, now), steps[..k]).op, CycleOf(op, m))
  }

  function CountAt(op: TxOp, m: Message, now: nat, steps: seq<Step>, k: nat): nat
    requires Ready(op, m) && k <= |steps|
  {
    Run(Started(op, m, now), steps[..k]).op.count
  }

  /** The k-th step is the first to have the count used up, and exactly max(1, c) frames are sent by then. */
  ghost predicate UsesUpCount(op: TxOp, m: Message, now: nat, steps: seq<Step>, k: nat)
    requires Ready(op, m) && k <= |steps|
  {
    && CountAt(op, m, now, steps, k) == 0
    && (forall j :: 0 <= j < k ==> CountAt(op, m, now, steps, j) > 0)
    && SentBy(op, m, now, steps, k) == Max(1, m.count)
  }

  /** In every run that uses up the count there is one moment at which it does so, with exactly max(1, c) frames sent. */
  lemma {:induction false} FirstPhaseIsExact(op: TxOp, m: Message, now: nat, steps: seq<Step>)
    requires Ready(op, m) && StartsCycle(m) && Undisturbed(steps)
    requires Run(Started(op, m, now), steps).op.count == 0
    ensures exists k :: 0 <= k <= |steps| && UsesUpCount(op, m, now, steps, k)
    decreases |steps|
  {
    assert steps[..|steps|] == steps;
    if steps == [] {
      SetupStarts(op, m, now);
      assert UsesUpCount(op, m, now, steps, 0);
    } else {
      var init := steps[..|steps| - 1];
      assert forall j :: 0 <= j <= |init| ==> init[..j] == steps[..j];
      if Run(Started(op, m, now), init).op.count == 0 {
        FirstPhaseIsExact(op, m, now, init);
        var k :| 0 <= k <= |init| && UsesUpCount(op, m, now, init, k);
        forall j | 0 <= j < k ensures CountAt(op, m, now, steps, j) > 0 { assert CountAt(op, m, now, init, j) > 0; }
        assert UsesUpCount(op, m, now, steps, k);
      } else {
        LastCountedTick(op, m, now, steps);
        CycleCounts(op, m, now, init);
        forall j | 0 <= j < |steps| ensures CountAt(op, m, now, steps, j) > 0 {
          CountNeverRises(op, m, now, steps, j, |init|);
        }
        assert UsesUpCount(op, m, now, steps, |steps|);
      }
    }
  }

  lemma {:induction false} CountNeverRises(op: TxOp, m: Message, now: nat, steps: seq<Step>, j: nat, k: nat)
    requires Ready(op, m) && StartsCycle(m) && Undisturbed(steps) && j <= k <= |steps|
    ensures CountAt(op, m, now, steps, j) >= CountAt(op, m, now, steps, k)
    decreases k
  {
    if j < k {
      CountNeverRises(op, m, now, steps, j, k - 1);
      assert steps[..k][..k - 1] == steps[..k - 1];
    }
  }

  /** The timer is armed or its tasklet scheduled, never both, until the cycle is over; then neither. */
  ghost predicate Alive(op: TxOp) {
    if op.count > 0 || op.ival2 > 0 then op.timer.Some? != op.tasklet
    else op.timer.None? && !op.tasklet
  }

  predicate Stopped(op: TxOp) { op.timer.None? && !op.tasklet }

  /** A cycle starts with one pending expiry exactly when no tasklet was left from an earlier one. */
  lemma CycleStartsAlive(op: TxOp, m: Message, now: nat)
    requires Ready(op, m) && StartsCycle(m)
    ensures Alive(Started(op, m, now).op) <==> !op.tasklet
    ensures var r := Started(op, m, now).op;
      op.tasklet && (m.count >= 2 || m.ival2Us > 0) ==> r.timer.Some? && r.tasklet
  {
    SetupStarts(op, m, now);
  }

  /** While there is more to send, the timer is armed or its tasklet scheduled. */
  ghost predicate Pending(op: TxOp) {
    op.count > 0 || op.ival2 > 0 ==> op.timer.Some? || op.tasklet
  }

  lemma NextPending(s: State, a: Step, c: Cycle)
    requires InOrder(s.op, c) && Counted(s.op, c) && Pending(s.op) && !a.Configures? && (a.Runs? ==> a.dev)
    ensures Pending(Next(s, a).op)
  {
  }

  /** In every run, whatever was left from an earlier cycle, the timer stops only with the last frame sent. */
  lemma {:induction false} NeverStopsEarly(op: TxOp, m: Message, now: nat, steps: seq<Step>)
    requires Ready(op, m) && StartsCycle(m) && Undisturbed(steps)
    ensures var r := Run(Started(op, m, now), steps).op;
      Pending(r) && (Stopped(r) ==> r.count == 0 && m.ival2Us == 0)
    decreases |steps|
  {
    CycleCounts(op, m, now, steps);
    if steps == [] {
      SetupStarts(op, m, now);
    } else {
      var init, last := steps[..|steps| - 1], steps[|steps| - 1];
      NeverStopsEarly(op, m, now, init);
      CycleCounts(op, m, now, init);
      NextPending(Run(Started(op, m, now), init), last, CycleOf(op, m));
    }
  }

  /** The timer has stopped if and only if the count is used up and there is no second interval. */
  ghost predicate StopsRight(op: TxOp, m: Message, now: nat, steps: seq<Step>)
    requires Ready(op, m)
  {
    var r := Run(Started(op, m, now), steps).op;
    Stopped(r) <==> r.count == 0 && m.ival2Us == 0
  }

  /** Something is pending while it should be; a left-over tasklet beside the timer must not end the count. */
  ghost predicate Going(op: TxOp) {
    if op.ival2 > 0 then op.timer.Some? || op.tasklet
    else Alive(op) || (op.timer.Some? && op.tasklet && op.count >= 2)
  }

  lemma NextGoing(s: State, a: Step, c: Cycle)
    requires InOrder(s.op, c) && Counted(s.op, c) && Going(s.op) && !a.Configures? && (a.Runs? ==> a.dev)
    ensures Going(Next(s, a).op)
  {
  }

  lemma {:induction false} RunGoing(op: TxOp, m: Message, now: nat, steps: seq<Step>)
    requires Ready(op, m) && StartsCycle(m) && Undisturbed(steps)
    requires !op.tasklet || m.ival2Us > 0 || m.count >= 3
    ensures Going(Run(Started(op, m, now), steps).op)
    ensures !op.tasklet ==> Alive(Run(Started(op, m, now), steps).op)
    decreases |steps|
  {
    if steps == [] {
      SetupStarts(op, m, now);
      CycleStartsAlive(op, m, now);
    } else {
      var init, last := steps[..|steps| - 1], steps[|steps| - 1];
      RunGoing(op, m, now, init);
      CycleCounts(op, m, now, init);
      NextGoing(Run(Started(op, m, now), init), last, CycleOf(op, m));
    }
  }

  /** Otherwise the left-over tasklet uses up the count with a last, idle expiry still to come. */
  lemma LateStop(op: TxOp, m: Message, now: nat) returns (steps: seq<Step>)
    requires Ready(op, m) && StartsCycle(m) && op.tasklet && m.ival2Us == 0 && m.count <= 2
    ensures Undisturbed(steps) && !StopsRight(op, m, now, steps)
  {
    SetupStarts(op, m, now);
    CycleStartsAlive(op, m, now);
    if m.count <= 1 { return []; }
    steps := [Runs(true)];
    OneStep(Started(op, m, now), Runs(true));
  }

  /**
   In every run the timer stops exactly when the count is used up and the second interval
   is 0, if and only if no tasklet was left from an earlier cycle, or there is a second
   interval, or there are at least three frames to count.
   */
  lemma TimerStops(op: TxOp, m: Message, now: nat)
    requires Ready(op, m) && StartsCycle(m)
    ensures (forall steps :: Undisturbed(steps) ==> StopsRight(op, m, now, steps))
      <==> !op.tasklet || m.ival2Us > 0 || m.count >= 3
  {
    if !op.tasklet || m.ival2Us > 0 || m.count >= 3 {
      forall steps | Undisturbed(steps) ensures StopsRight(op, m, now, steps) {
        RunGoing(op, m, now, steps);
        CycleCounts(op, m, now, steps);
      }
    } else {
      var steps := LateStop(op, m, now);
      assert Undisturbed(steps) && !StopsRight(op, m, now, steps);
    }
  }

  // ---------- times ----------

  /** Planned time of the k-th frame: p first intervals, then second intervals. */
  function PlannedAt(start: nat, p: nat, ival1: nat, ival2: nat, k: nat): nat {
    if k == 0 then start
    else PlannedAt(start, p, ival1, ival2, k - 1) + if k <= p then ival1 else ival2
  }

  lemma {:induction false} PlannedClosedForm(start: nat, p: nat, ival1: nat, ival2: nat, k: nat)
    ensures PlannedAt(start, p, ival1, ival2, k) ==
      start + (if k <= p then k * ival1 else p * ival1 + (k - p) * ival2)
  {
    if k > 0 {
      PlannedClosedForm(start, p, ival1, ival2, k - 1);
      if k <= p {
        assert k * ival1 == (k - 1) * ival1 + ival1;
      } else {
        assert (k - p) * ival2 == (k - 1 - p) * ival2 + ival2;
      }
    }
  }

  function Planned(op: TxOp, c: Cycle, start: nat, k: nat): nat {
    PlannedAt(start, Max(1, c.count) - 1, op.ival1, op.ival2, k)
  }

  ghost predicate OnTime(s: State, a: Step) {
    a.Tick? ==> !s.op.tasklet && (s.op.timer.Some? ==> a.to <= s.op.timer.value)
  }

  ghost predicate Punctual(s: State, c: Cycle, start: nat) {
    var n := SentIn(s.op, c);
    && n >= 0 && Alive(s.op)
    && (forall j :: c.sentBefore <= j < |s.op.sent| ==>
          s.op.sent[j].at == Planned(s.op, c, start, j - c.sentBefore))
    && (s.op.timer.Some? ==> s.op.timer.value == Planned(s.op, c, start, n) >= s.now)
    && (s.op.tasklet ==> s.now == Planned(s.op, c, start, n))
  }

  lemma NextPunctual(s: State, a: Step, c: Cycle, start: nat)
    requires InOrder(s.op, c) && Counted(s.op, c) && Punctual(s, c, start)
    requires OnTime(s, a) && !a.Configures? && (a.Runs? ==> a.dev)
    ensures Punctual(Next(s, a), c, start)
  {
    if a.Runs? { TaskletPunctual(s, c, start); }
  }

  lemma TaskletPunctual(s: State, c: Cycle, start: nat)
    requires InOrder(s.op, c) && Counted(s.op, c) && Punctual(s, c, start)
    ensures Punctual(Next(s, Runs(true)), c, start)
  {
    TaskletCounts(s.op, c, s.now);
  }

  ghost predicate AllOnTime(s: State, steps: seq<Step>)
    requires Shape(s.op)
  {
    forall i :: 0 <= i < |steps| ==> OnTime(Run(s, steps[..i]), steps[i])
  }

  lemma FirstFrameTime(op: TxOp, m: Message, now: nat)
    requires Ready(op, m) && StartsCycle(m) && !op.tasklet
    ensures Punctual(Started(op, m, now), CycleOf(op, m), now)
  {
    var r, c := Started(op, m, now).op, CycleOf(op, m);
    SetupStarts(op, m, now);
    CycleStartsAlive(op, m, now);
    assert r.sent == op.sent + [r.sent[|op.sent|]] && r.sent[|op.sent|].at == now;
    assert Planned(r, c, now, 0) == now;
    assert Planned(r, c, now, 1) == Planned(r, c, now, 0) + if 1 <= Max(1, c.count) - 1 then r.ival1 else r.ival2;
  }

  lemma {:induction false} RunPunctual(op: TxOp, m: Message, now: nat, steps: seq<Step>)
    requires Ready(op, m) && StartsCycle(m) && Undisturbed(steps)
    requires !op.tasklet && AllOnTime(Started(op, m, now), steps)
    ensures Punctual(Run(Started(op, m, now), steps), CycleOf(op, m), now)
    decreases |steps|
  {
    var start := Started(op, m, now);
    if steps == [] {
      FirstFrameTime(op, m, now);
    } else {
      var init, last := steps[..|steps| - 1], steps[|steps| - 1];
      forall i | 0 <= i < |init| ensures OnTime(Run(start, init[..i]), init[i]) {
        assert init[..i] == steps[..i];
      }
      RunPunctual(op, m, now, init);
      CycleCounts(op, m, now, init);
      RunGoing(op, m, now, init);
      NextPunctual(Run(start, init), last, CycleOf(op, m), now);
    }
  }

  /** Every frame of the cycle has left at its planned time. */
  ghost predicate OnPlan(op: TxOp, c: Cycle, start: nat) {
    forall j :: c.sentBefore <= j < |op.sent| ==> op.sent[j].at == Planned(op, c, start, j - c.sentBefore)
  }

  /** All frames there will be: a single one, when neither count nor second interval asks for more. */
  predicate SingleShot(m: Message) { m.count <= 1 && m.ival2Us == 0 }

  lemma {:induction false} SingleFrame(op: TxOp, m: Message, now: nat, steps: seq<Step>)
    requires Ready(op, m) && StartsCycle(m) && Undisturbed(steps) && SingleShot(m)
    ensures var r := Run(Started(op, m, now), steps).op;
      r.count == 0 && r.ival2 == 0 && r.sent == Started(op, m, now).op.sent
    decreases |steps|
  {
    if steps == [] { SetupStarts(op, m, now); } else { SingleFrame(op, m, now, steps[..|steps| - 1]); }
  }

  lemma EarlyFrame(op: TxOp, m: Message, now: nat)
    requires Ready(op, m) && StartsCycle(m) && op.tasklet && !SingleShot(m)
    ensures !OnPlan(Run(Started(op, m, now), [Runs(true)]).op, CycleOf(op, m), now)
  {
    var start, c := Started(op, m, now), CycleOf(op, m);
    SetupStarts(op, m, now);
    TaskletCounts(start.op, c, now);
    OneStep(start, Runs(true));
    var r := Tasklet(start.op, true, now);
    assert r.sent[c.sentBefore + 1].at == now;
    SecondIsLater(r, c, now);
  }

  lemma OneStep(s: State, a: Step)
    requires Shape(s.op)
    ensures Run(s, [a]) == Next(s, a)
  {
    assert [a][..0] == [] && Run(s, []) == s;
  }

  lemma SecondIsLater(op: TxOp, c: Cycle, start: nat)
    requires op.ival1 > 0 && (c.count >= 2 || op.ival2 > 0)
    ensures Planned(op, c, start, 1) > start
  {
    assert Planned(op, c, start, 0) == start;
  }

  /**
   With timers and tasklets on time every frame of the cycle leaves at its planned time,
   if and only if no tasklet was left from an earlier cycle or there is only one frame.
   */
  lemma CycleTimes(op: TxOp, m: Message, now: nat)
    requires Ready(op, m) && StartsCycle(m)
    ensures (forall steps :: Undisturbed(steps) && AllOnTime(Started(op, m, now), steps) ==>
              OnPlan(Run(Started(op, m, now), steps).op, CycleOf(op, m), now))
      <==> !op.tasklet || SingleShot(m)
  {
    if !op.tasklet || SingleShot(m) {
      forall steps | Undisturbed(steps) && AllOnTime(Started(op, m, now), steps)
        ensures OnPlan(Run(Started(op, m, now), steps).op, CycleOf(op, m), now)
      {
        if !op.tasklet {
          RunPunctual(op, m, now, steps);
        } else {
          SingleFrame(op, m, now, steps);
          SetupStarts(op, m, now);
        }
      }
    } else {
      EarlyFrame(op, m, now);
      var steps := [Runs(true)];
      assert Undisturbed(steps) && AllOnTime(Started(op, m, now), steps);
    }
  }

  // ---------- a tasklet left over ----------

  const NO_FLAGS := TxFlags(false, false, false, false, false, false)

  /** Two frames, a microsecond apart. */
  function Twice(): Message {
    Message({}, NO_FLAGS.(setTimer := true, startTimer := true), [Frame({}, 8, {})], 2, 1, 0)
  }

  /** A new cycle's timer has expired, and its tasklet has not run yet. */
  function Expired(): State {
    Next(Next(State(Create(Twice(), true, 0).value, 0), Tick(1000)), Expires)
  }

  lemma ExpiredIsReady()
    ensures Create(Twice(), true, 0).Some?
    ensures var s := Expired();
      && s.now == 1000 && s.op.tasklet && s.op.timer.None? && s.op.count == 1 && |s.op.sent| == 1
      && Shape(s.op) && Ready(s.op, Twice()) && StartsCycle(Twice())
      && s.op.frames == Twice().frames && s.op.nframes == 1 && s.op.currframe == 0
  {
    assert CopyFrames(NewOp(Twice()).frames, Twice(), 0).0 == Twice().frames;
  }

  /**
   The same TX_SETUP comes at that moment. The left-over tasklet sends the second frame a
   microsecond early and uses up the count; one more expiry and its tasklet do nothing, and
   only then the timer has stopped.
   */
  lemma LeftoverIsReached()
    ensures Create(Twice(), true, 0).Some?
    ensures var s := Expired();
      s.op.tasklet && Ready(s.op, Twice()) &&
      var s1 := Next(s, Configures(Twice(), true));
      s1 == Started(s.op, Twice(), 1000) &&
      var s2 := Next(s1, Runs(true));
      s2.op.count == 0 && !Stopped(s2.op) && |s2.op.sent| == 3 && s2.op.sent[2].at == 1000 &&
      var s5 := Next(Next(Next(s2, Tick(2000)), Expires), Runs(true));
      Stopped(s5.op) && s5.op.sent == s2.op.sent
  {
    ExpiredIsReady();
    var s := Expired();
    assert CopyFrames(s.op.frames, Twice(), 0).0 == s.op.frames;
  }

  // ---------- rejected updates ----------

  /** Every frame the operation may send has a valid length. */
  ghost predicate Clean(op: TxOp) {
    forall i :: 0 <= i < op.nframes && i < |op.frames| ==> !Bad(op.frames[i])
  }

  lemma {:induction false} CopyEffect(stored: seq<Frame>, m: Message, i: nat)
    requires i <= |m.frames| <= |stored|
    ensures var (r, ok) := CopyFrames(stored, m, i);
      && (ok <==> forall j :: i <= j < |m.frames| ==> !Bad(m.frames[j]))
      && (!ok ==> exists j :: i <= j < |m.frames| && Bad(r[j]))
      && (ok ==> forall j :: i <= j < |m.frames| ==> !Bad(r[j]))
      && (forall j :: 0 <= j < |stored| && (j < i || j >= |m.frames|) ==> r[j] == stored[j])
    decreases |m.frames| - i
  {
    if i < |m.frames| {
      if Bad(m.frames[i]) {
        assert Bad(CopyFrames(stored, m, i).0[i]);
      } else {
        var f := if m.flags.cpCanId then m.frames[i].(id := m.canId) else m.frames[i];
        CopyEffect(stored[i := f], m, i + 1);
      }
    }
  }

  /**
   A TX_SETUP is not atomic: refusing an update because of a frame with an invalid length
   leaves that frame among those the running cycle sends. The operation stays clean
   if and only if the message is accepted or is refused before any frame is copied.
   */
  lemma UpdateStaysClean(op: TxOp, m: Message, dev: bool, now: nat)
    requires Shape(op) && Clean(op)
    ensures Clean(Setup(op, m, dev, now).op) <==>
      (!Sized(m) || |m.frames| > op.nframes || forall j :: 0 <= j < |m.frames| ==> !Bad(m.frames[j]))
  {
    if Sized(m) && |m.frames| <= op.nframes {
      CopyEffect(op.frames, m, 0);
      var (stored, ok) := CopyFrames(op.frames, m, 0);
      if !ok {
        var j :| 0 <= j < |m.frames| && Bad(stored[j]);
        assert Bad(Setup(op, m, dev, now).op.frames[j]);
      }
    }
  }

  /** A one-frame message with this length. */
  function Single(dlc: bv8, start: bool): Message {
    Message({}, NO_FLAGS.(setTimer := start, startTimer := start), [Frame({}, dlc, {})], 0, 0, if start then 1 else 0)
  }

  /** One with dlc 9 is refused, and the running cycle's next frame is that one. */
  lemma RefusedFrameIsSent()
    ensures var cycle := Create(Single(8, true), true, 0);
      cycle.Some? && Clean(cycle.value) &&
      var s1 := Next(State(cycle.value, 0), Configures(Single(9, false), true));
      Setup(cycle.value, Single(9, false), true, 0).Rejected? && !Clean(s1.op) &&
      var s4 := Next(Next(Next(s1, Tick(1000)), Expires), Runs(true));
      |s4.op.sent| == 2 && Bad(s4.op.sent[1].frame)
  {
    var cycle := Create(Single(8, true), true, 0).value;
    assert cycle.frames == [Frame({}, 8, {})];
    var s1 := Next(State(cycle, 0), Configures(Single(9, false), true));
    assert s1.op.frames[0].dlc == 9;
  }
}
