/** What a TX_SETUP asks for is what the operation then sends. */
module BcmTxSetup {
  import opened Options
  import opened BcmFrames
  import opened BcmTx
  import opened BcmTxRuns

  /** A TX_SETUP for an identifier, whether or not it has an operation yet; None if it is refused. */
  function Install(prior: Option<TxOp>, m: Message, dev: bool, now: nat): Option<TxOp>
    requires prior.Some? ==> Shape(prior.value)
  {
    match prior
    case None => Create(m, dev, now)
    case Some(op) => var r := Setup(op, m, dev, now); if r.Done? then Some(r.op) else None
  }

  /** The number of frames sent before it. */
  function Before(prior: Option<TxOp>): nat { if prior.Some? then |prior.value.sent| else 0 }

  // ---------- the frames ----------

  /** A stored frame is the message's, with its own identifier unless the message's is asked for. */
  ghost predicate Copied(f: Frame, m: Message, j: nat)
    requires j < |m.frames|
  {
    && f.dlc == m.frames[j].dlc && f.data == m.frames[j].data
    && f.id == (if m.flags.cpCanId then m.canId else m.frames[j].id)
  }

  /** The index of the first frame with a bad length, or the number of frames. */
  function FirstBad(m: Message, i: nat): (b: nat)
    requires i <= |m.frames|
    ensures i <= b <= |m.frames|
    ensures forall j :: i <= j < b ==> !Bad(m.frames[j])
    ensures b < |m.frames| ==> Bad(m.frames[b])
    decreases |m.frames| - i
  {
    if i == |m.frames| || Bad(m.frames[i]) then i else FirstBad(m, i + 1)
  }

  /**
   The copy loop stops at the first bad frame, which it stores as it came. All before it are
   stored as asked for, and all behind it stay.
   */
  lemma {:induction false} CopyStores(stored: seq<Frame>, m: Message, i: nat)
    requires i <= |m.frames| <= |stored|
    ensures var (r, ok) := CopyFrames(stored, m, i); var b := FirstBad(m, i);
      && (ok <==> b == |m.frames|)
      && (forall j :: i <= j < b ==> Copied(r[j], m, j))
      && (!ok ==> r[b] == m.frames[b])
      && forall j :: 0 <= j < |stored| && (j < i || j > b || j >= |m.frames|) ==> r[j] == stored[j]
    decreases |m.frames| - i
  {
    if i < |m.frames| && !Bad(m.frames[i]) {
      var f := if m.flags.cpCanId then m.frames[i].(id := m.canId) else m.frames[i];
      CopyStores(stored[i := f], m, i + 1);
    }
  }

  /** Exactly the malformed messages are refused, and those with more frames than the operation sends. */
  lemma RefusedIff(prior: Option<TxOp>, m: Message, dev: bool, now: nat)
    requires prior.Some? ==> Shape(prior.value)
    ensures var unfit := |m.frames| == 0 || |m.frames| > 256 || (prior.Some? && |m.frames| > prior.value.nframes);
      && (Install(prior, m, dev, now).None? <==> unfit || FirstBad(m, 0) < |m.frames|)
      && (prior.Some? && unfit ==> Setup(prior.value, m, dev, now).op == prior.value)
  {
    match prior
    case None => if Sized(m) { CopyStores(NewOp(m).frames, m, 0); }
    case Some(op) => if Sized(m) && |m.frames| <= op.nframes { CopyStores(op.frames, m, 0); }
  }

  /** The operation an accepted TX_SETUP takes over, its frames copied in. */
  function Filled(prior: Option<TxOp>, m: Message): TxOp
    requires prior.Some? ==> |m.frames| <= |prior.value.frames|
  {
    var op := if prior.Some? then prior.value else NewOp(m);
    op.(frames := CopyFrames(op.frames, m, 0).0)
  }

  lemma InstallLaunches(prior: Option<TxOp>, m: Message, dev: bool, now: nat)
    requires (prior.Some? ==> Shape(prior.value)) && Install(prior, m, dev, now).Some?
    ensures prior.Some? ==> |m.frames| <= |prior.value.frames|
    ensures var op := Filled(prior, m);
      && Ready(op, m) && Install(prior, m, dev, now) == Some(Launch(Adopt(op, m), dev, now))
      && forall j :: 0 <= j < |m.frames| ==> Copied(op.frames[j], m, j)
  {
    RefusedIff(prior, m, dev, now);
    CopyStores(if prior.Some? then prior.value.frames else NewOp(m).frames, m, 0);
  }

  // ---------- what leaves at once, and the timer ----------

  /** The first frame to send: that of the running rotation, unless the number of frames changes or a restart is asked for. */
  function First(prior: Option<TxOp>, m: Message): nat {
    if prior.None? || prior.value.nframes != |m.frames| || m.flags.resetMultiIdx then 0 else prior.value.currframe
  }

  /** Before anything is sent: the count and intervals are the message's with SETTIMER, and else those there were. */
  lemma AdoptDoes(op: TxOp, m: Message)
    requires Ready(op, m)
    ensures var r := Adopt(op, m);
      && r.flags == m.flags && r.nframes == |m.frames| && r.frames == op.frames
      && (m.flags.setTimer ==> r.count == m.count && r.ival1 == 1000 * m.ival1Us && r.ival2 == 1000 * m.ival2Us)
      && (!m.flags.setTimer ==> r.count == op.count && r.ival1 == op.ival1 && r.ival2 == op.ival2)
      && (r.timer == if m.flags.setTimer && m.ival1Us == 0 && m.ival2Us == 0 then None else op.timer)
      && r.canId == op.canId && r.sent == op.sent && r.tasklet == op.tasklet && r.expired == op.expired
  {
  }

  /**
   One frame leaves at once exactly if the timer is started or the message announces, and it
   is taken off the count. The timer starts at the interval now in force exactly if asked to.
   */
  lemma LaunchDoes(op: TxOp, dev: bool, now: nat)
    requires Shape(op)
    ensures var r := Launch(op, dev, now); var sends := op.flags.startTimer || op.flags.announce;
      && r.count == (if sends && op.count > 0 then op.count - 1 else op.count)
      && (sends && dev ==> r.sent == op.sent + [Sent(op.frames[op.currframe], now)])
      && (!sends || !dev ==> r.sent == op.sent && r.currframe == op.currframe)
      && r.frames == op.frames && r.nframes == op.nframes
      && r.ival1 == op.ival1 && r.ival2 == op.ival2
      && r.canId == op.canId && r.tasklet == op.tasklet && r.expired == op.expired
      && (!op.flags.startTimer ==> r.timer == op.timer)
      && r.timer == (if !op.flags.startTimer then op.timer
                     else if op.ival1 > 0 && r.count > 0 then Some(now + op.ival1)
                     else if op.ival2 > 0 then Some(now + op.ival2) else None)
  {
  }

  /** The count in force: the message's with SETTIMER, and else what was left of it. */
  function CountFor(prior: Option<TxOp>, m: Message): nat {
    if m.flags.setTimer then m.count else if prior.Some? then prior.value.count else 0
  }

  /** A frame leaves with the TX_SETUP itself exactly if it starts the timer or announces, and counts as the first. */
  lemma SentAtSetup(prior: Option<TxOp>, m: Message, dev: bool, now: nat)
    requires (prior.Some? ==> Shape(prior.value)) && Install(prior, m, dev, now).Some?
    ensures var r := Install(prior, m, dev, now).value; var sends := m.flags.startTimer || m.flags.announce;
      && |r.sent| == Before(prior) + (if sends && dev then 1 else 0)
      && (sends && dev ==> r.sent[Before(prior)].at == now)
      && (prior.Some? ==> prior.value.sent <= r.sent && r.expired == prior.value.expired && r.tasklet == prior.value.tasklet)
      && (prior.None? ==> r.expired == [] && !r.tasklet && r.canId == m.canId)
      && r.count == (if sends && CountFor(prior, m) > 0 then CountFor(prior, m) - 1 else CountFor(prior, m))
  {
    InstallLaunches(prior, m, dev, now);
    AdoptDoes(Filled(prior, m), m);
    LaunchDoes(Adopt(Filled(prior, m), m), dev, now);
  }

  /** A timer starts with STARTTIMER alone, and stops without it only for two zero intervals. */
  lemma TimerAfterSetup(prior: Option<TxOp>, m: Message, dev: bool, now: nat)
    requires (prior.Some? ==> Shape(prior.value)) && Install(prior, m, dev, now).Some?
    ensures var r := Install(prior, m, dev, now).value;
      && (m.flags.startTimer ==> (r.timer.Some? <==> (r.ival1 > 0 && r.count > 0) || r.ival2 > 0))
      && (!m.flags.startTimer && m.flags.setTimer && m.ival1Us == 0 && m.ival2Us == 0 ==> r.timer == None)
      && (!m.flags.startTimer && (!m.flags.setTimer || m.ival1Us > 0 || m.ival2Us > 0) ==>
           r.timer == (if prior.Some? then prior.value.timer else None))
      && (prior.None? && !m.flags.setTimer ==> r.ival1 == 0 && r.ival2 == 0 && r.count == 0 && r.timer == None)
  {
    InstallLaunches(prior, m, dev, now);
    AdoptDoes(Filled(prior, m), m);
    LaunchDoes(Adopt(Filled(prior, m), m), dev, now);
  }

  // ---------- the frames of a run ----------

  /** A cycle by its first frame and the number of frames sent before it. */
  function Rotation(first: nat, before: nat): Cycle { Cycle(first, 0, before, 0) }

  /** Only the frames, the index and the log matter for the order. */
  lemma OrderByFields(op: TxOp, r: TxOp, c: Cycle)
    requires InOrder(op, c)
    requires r.frames == op.frames && r.nframes == op.nframes && r.currframe == op.currframe && r.sent == op.sent
    ensures InOrder(r, c)
  {
    assert SentIn(r, c) == SentIn(op, c);
  }

  /** The next frame leaves and the rotation goes on, or nothing happens without a device. */
  lemma CanTxInOrder(op: TxOp, c: Cycle, dev: bool, now: nat)
    requires InOrder(op, c)
    ensures var r := CanTx(op, dev, now); InOrder(r, c) && r.frames == op.frames && r.nframes == op.nframes
  {
    if dev { SendKeepsOrder(op, c, now); }
  }

  lemma TaskletInOrder(op: TxOp, c: Cycle, dev: bool, now: nat)
    requires InOrder(op, c)
    ensures var r := Tasklet(op, dev, now); InOrder(r, c) && r.frames == op.frames && r.nframes == op.nframes
  {
    if op.tasklet {
      var op1 := op.(tasklet := false);
      if op.ival1 != 0 && op.count > 0 { op1 := CountDown(op1, now); }
      OrderByFields(op, op1, c);
      CanTxInOrder(op1, c, dev, now);
      OrderByFields(CanTx(op1, dev, now), StartTimer(CanTx(op1, dev, now), now), c);
      OrderByFields(op1, StartTimer(op1, now), c);
    }
  }

  lemma LaunchInOrder(op: TxOp, c: Cycle, dev: bool, now: nat)
    requires InOrder(op, c)
    ensures InOrder(Launch(op, dev, now), c)
  {
    var op1 := if op.flags.startTimer then op.(timer := None, flags := op.flags.(announce := true)) else op;
    OrderByFields(op, op1, c);
    CanTxInOrder(op1, c, dev, now);
    OrderByFields(if op1.flags.announce then CanTx(op1, dev, now) else op1, Launch(op, dev, now), c);
  }

  lemma AdoptInOrder(op: TxOp, m: Message)
    requires Ready(op, m)
    ensures InOrder(Adopt(op, m), Rotation(CycleOf(op, m).first, |op.sent|))
  {
    SmallIndex(Adopt(op, m).currframe, |m.frames|);
  }

  /** The operation holds the message's frames, as asked for. */
  ghost predicate Holds(op: TxOp, m: Message) {
    && 0 < |m.frames| == op.nframes <= |op.frames|
    && forall j :: 0 <= j < |m.frames| ==> Copied(op.frames[j], m, j)
  }

  lemma InstallInOrder(prior: Option<TxOp>, m: Message, dev: bool, now: nat)
    requires (prior.Some? ==> Shape(prior.value)) && Install(prior, m, dev, now).Some?
    ensures var r := Install(prior, m, dev, now).value; InOrder(r, Rotation(First(prior, m), Before(prior))) && Holds(r, m)
  {
    InstallLaunches(prior, m, dev, now);
    var op := Filled(prior, m);
    AdoptInOrder(op, m);
    AdoptDoes(op, m);
    LaunchInOrder(Adopt(op, m), Rotation(First(prior, m), Before(prior)), dev, now);
    LaunchDoes(Adopt(op, m), dev, now);
  }

  lemma NextInOrder(s: State, a: Step, c: Cycle)
    requires InOrder(s.op, c) && !a.Configures?
    ensures var r := Next(s, a).op; InOrder(r, c) && r.frames == s.op.frames && r.nframes == s.op.nframes
  {
    match a
    case Tick(_) =>
    case Expires => OrderByFields(s.op, Next(s, a).op, c);
    case Runs(dev) => TaskletInOrder(s.op, c, dev, s.now);
  }

  lemma {:induction false} RunInOrder(s: State, steps: seq<Step>, c: Cycle)
    requires InOrder(s.op, c) && forall i :: 0 <= i < |steps| ==> !steps[i].Configures?
    ensures var r := Run(s, steps).op; InOrder(r, c) && r.frames == s.op.frames && r.nframes == s.op.nframes
    decreases |steps|
  {
    if steps != [] {
      var n := |steps| - 1;
      RunInOrder(s, steps[..n], c);
      NextInOrder(Run(s, steps[..n]), steps[n], c);
    }
  }

  /** The k-th frame of a rotation through the message's frames. */
  ghost predicate IsFrameOf(f: Frame, m: Message, k: nat) {
    |m.frames| > 0 && Copied(f, m, k % |m.frames|)
  }

  /** From index `before` on the log is a rotation through the message's frames, from the first one given. */
  ghost predicate SentInRotation(sent: seq<Sent>, m: Message, first: nat, before: nat) {
    forall j :: before <= j < |sent| ==> IsFrameOf(sent[j].frame, m, first + j - before)
  }

  /**
   The frames sent are the message's. After any accepted TX_SETUP, the first for its
   identifier or a later one, with or without timers, in every run up to the next TX_SETUP:
   the k-th frame sent is the message's frame (first + k) mod nframes, with its identifier
   replaced exactly if that was asked for.
   */
  lemma SendsWhatWasSet(prior: Option<TxOp>, m: Message, dev: bool, now: nat, steps: seq<Step>)
    requires (prior.Some? ==> Shape(prior.value)) && Install(prior, m, dev, now).Some?
    requires forall i :: 0 <= i < |steps| ==> !steps[i].Configures?
    ensures SentInRotation(Run(State(Install(prior, m, dev, now).value, now), steps).op.sent, m, First(prior, m), Before(prior))
  {
    InstallInOrder(prior, m, dev, now);
    RunIsMessages(State(Install(prior, m, dev, now).value, now), m, Rotation(First(prior, m), Before(prior)), steps);
  }

  lemma RunIsMessages(s: State, m: Message, c: Cycle, steps: seq<Step>)
    requires InOrder(s.op, c) && Holds(s.op, m) && forall i :: 0 <= i < |steps| ==> !steps[i].Configures?
    ensures SentInRotation(Run(s, steps).op.sent, m, c.first, c.sentBefore)
  {
    RunInOrder(s, steps, c);
    OrderIsMessages(Run(s, steps).op, m, c);
  }

  lemma OrderIsMessages(op: TxOp, m: Message, c: Cycle)
    requires InOrder(op, c) && Holds(op, m)
    ensures SentInRotation(op.sent, m, c.first, c.sentBefore)
  {
    forall j | c.sentBefore <= j < |op.sent| ensures IsFrameOf(op.sent[j].frame, m, c.first + j - c.sentBefore) {
      assert op.sent[j].frame == op.frames[(c.first + j - c.sentBefore) % op.nframes];
    }
  }

  // ---------- without a first interval ----------

  /** Without a first interval an expiry sends a frame at the second interval and counts nothing. */
  lemma SecondIntervalAlone(op: TxOp, now: nat)
    requires Shape(op) && op.tasklet && op.ival1 == 0
    ensures var r := Tasklet(op, true, now);
      && r.count == op.count && r.expired == op.expired && !r.tasklet
      && (op.ival2 > 0 ==> |r.sent| == |op.sent| + 1 && r.sent[|op.sent|].at == now && r.timer == Some(now + op.ival2))
      && (op.ival2 == 0 ==> r.sent == op.sent && r.timer == op.timer)
  {
  }
}
