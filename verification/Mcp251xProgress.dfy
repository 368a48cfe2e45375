/** What becomes of a frame, and of the device, from one entry point of the driver to the next. */
module Mcp251xProgress {
  import opened Options
  import opened Mcp251xTx

  // ---------- one frame's way ----------

  /** The device is up: it may be sent to, and its interrupts are served. */
  predicate Up(d: Driver) { d.ctl.running && !d.ctl.forceQuit && !d.ctl.canState.BusOff? }

  /**
   A frame is taken exactly if it is valid and none is in the way, and then the queue stops.
   A refused one changes nothing.
   */
  lemma TakenIff(d: Driver, t: Tx, valid: bool)
    requires Inv(d) && d.ctl.running
    ensures var r := Next(d, Xmit(t, valid));
      && (r.tx.accepted == d.tx.accepted + [t] <==> valid && InFlight(d.tx) == [])
      && (valid && InFlight(d.tx) == [] ==> InFlight(r.tx) == [t] && !r.ctl.queueOn)
      && (!valid || InFlight(d.tx) != [] ==> r == d)
  {
  }

  /** A device that is up and idle sends a valid frame: accepted, handed over, completed with its echo, and idle again. */
  lemma FrameGoesThrough(d: Driver, t: Tx, memory: bool, f: Flags)
    requires Inv(d) && Up(d) && !Busy(d.tx) && f.any && f.tx && !f.txbo
    ensures var r := Next(Next(Next(d, Xmit(t, true)), Work(memory)), Interrupt([f]));
      && r.tx.accepted == d.tx.accepted + [t] && r.tx.ended == d.tx.ended + [Completed(t, t.loop && memory)]
      && r.tx.looped == d.tx.looped + (if t.loop && memory then [t] else [])
      && r.tx.txPackets == d.tx.txPackets + 1 && r.tx.txBytes == d.tx.txBytes + (if t.dlc <= 8 then t.dlc else 8) && r.tx.txErrors == d.tx.txErrors
      && !Busy(r.tx) && Up(r) && r.ctl.queueOn
  {
    var d1 := Next(d, Xmit(t, true));
    var d2 := Next(d1, Work(memory));
    assert d1.tx.txSkb == Some(t) && d2.tx.wire == Some(t) && d2.tx.txLen == 1 + Length(t);
    assert d2.tx.echo == if t.loop && memory then Some(t) else None;
    InterruptOnce(d2, f);
  }

  /** One read that says something, and then silence. */
  lemma InterruptOnce(d: Driver, f: Flags)
    requires !d.ctl.forceQuit && f.any && !f.txbo
    ensures Ist(d, [f]) == IstRound(IstRound(d, f).0, QUIET).0
  {
    assert [f][1..] == [];
  }

  /** A frame that has not been handed over when the bus goes off, or the device is restarted or stopped, fails once. */
  lemma FailsOnce(d: Driver, memory: bool)
    requires Inv(d) && InFlight(d.tx) != []
    ensures var e := d.tx.ended + [Failed(InFlight(d.tx)[0])];
      && (d.ctl.canState.BusOff? && d.tx.txSkb.Some? ==> Next(d, Work(memory)).tx.ended == e)
      && Next(d, RestartTimer).tx.ended == e
      && (!d.ctl.running ==> Next(d, StopLast).tx.ended == e)
  {
    CleanKeeps(d.tx);
    FlushKeeps(d.tx);
    CleanKeeps(FlushEcho(d.tx));
  }

  // ---------- the queue ----------

  /** The queue runs beside a frame in flight only after a transmit interrupt for nothing. */
  ghost predicate QueueFits(d: Driver) { d.ctl.queueOn && Busy(d.tx) ==> d.tx.spurious > 0 }

  lemma {:induction false} IstQueue(d: Driver, polls: seq<Flags>)
    requires Inv(d) && QueueFits(d)
    ensures QueueFits(Ist(d, polls))
    decreases |polls|
  {
    if !d.ctl.forceQuit {
      var f := if polls == [] then QUIET else polls[0];
      RoundKeeps(d, f);
      if polls != [] && IstRound(d, f).1 { IstQueue(IstRound(d, f).0, polls[1..]); }
    }
  }

  lemma NextQueue(d: Driver, s: Step)
    requires Inv(d) && QueueFits(d)
    ensures QueueFits(Next(d, s))
  {
    match s
    case Work(memory) => SendKeeps(d.tx, d.ctl.canState.BusOff?, memory);
    case Interrupt(polls) => IstQueue(d, polls);
    case Xmit(t, valid) =>
    case RestartTimer =>
    case Restarted(normal) =>
    case StopFirst =>
    case StopLast =>
    case Opened(ok) =>
    case Suspended(power) =>
    case Resumed =>
  }

  /** In every run: a driver whose queue runs has nothing in flight, unless an interrupt came for nothing. */
  lemma {:induction false} QueueRunsWhenIdle(restartMs: nat, steps: seq<Step>)
    ensures QueueFits(Run(restartMs, steps))
    decreases |steps|
  {
    if steps != [] {
      var n := |steps| - 1;
      QueueRunsWhenIdle(restartMs, steps[..n]);
      OneFrameInFlight(restartMs, steps[..n]);
      NextQueue(Run(restartMs, steps[..n]), steps[n]);
    }
  }

  // ---------- the error state ----------

  /** The state is the worst one any error bit stands for. */
  lemma WorstStateCounts(f: Flags)
    ensures NewState(f) != Stopped
    ensures NewState(f).BusOff? <==> f.txbo
    ensures NewState(f).ErrorPassive? <==> !f.txbo && (f.txep || f.rxep)
    ensures NewState(f).ErrorActive? <==> !f.txbo && !f.txep && !f.rxep && !f.txwar && !f.rxwar
  {
  }

  /**
   Bus off without an automatic restart ends the interrupts for good; a transmit interrupt
   otherwise wakes the queue; and the thread goes on until nothing is flagged.
   */
  lemma RoundDoes(d: Driver, f: Flags)
    ensures var (r, more) := IstRound(d, f);
      && r.ctl.canState == NewState(f)
      && (r.ctl.forceQuit <==> d.ctl.forceQuit || (f.txbo && d.ctl.restartMs == 0))
      && (more <==> f.any && !(f.txbo && d.ctl.restartMs == 0))
      && (more && f.tx ==> r.tx == Complete(d.tx) && r.ctl.queueOn)
      && (!more || !f.tx ==> r.tx == d.tx && r.ctl.queueOn == d.ctl.queueOn)
      && r.ctl.running == d.ctl.running && r.ctl.afterSuspend == d.ctl.afterSuspend && r.ctl.restartTx == d.ctl.restartTx
  {
  }

  // ---------- down and up again ----------

  /** The path of a driver none of whose frames is in flight any more. */
  ghost predicate Cleared(p: Path, r: Path) {
    r.accepted == p.accepted && !Busy(r) && |r.ended| == |p.ended| + |InFlight(p)|
  }

  lemma CleanClears(p: Path)
    requires Kept(p)
    ensures Kept(Clean(p)) && Cleared(p, Clean(p)) && Cleared(p, Clean(Clean(p)))
  {
    CleanKeeps(p);
    CleanKeeps(Clean(p));
  }

  /** The restart timer and its worker: whatever was in flight has failed, and the driver runs again. */
  lemma RestartRevives(d: Driver)
    requires Inv(d)
    ensures Next(d, RestartTimer).ctl.canState.ErrorActive? && Next(d, RestartTimer).ctl.restartTx
    ensures var r := Next(Next(d, RestartTimer), Restarted(true));
      && Cleared(d.tx, r.tx) && r.ctl.queueOn && r.ctl.canState.ErrorActive?
      && !r.ctl.restartTx && r.ctl.afterSuspend == {} && r.ctl.running == d.ctl.running
      && (d.ctl.restartMs == 0 || !d.ctl.forceQuit ==> !r.ctl.forceQuit)
  {
    FlushKeeps(d.tx);
    CleanClears(FlushEcho(d.tx));
  }

  /** Suspend and resume touch no frame; what is left to do is noted down. */
  lemma NotedDown(d: Driver, power: bool)
    requires d.ctl.running
    ensures var r := Next(Next(d, Suspended(power)), Resumed);
      && r.tx == d.tx && WakesUp(r.ctl) && r.ctl.afterSuspend != {} && !r.ctl.forceQuit
      && r.ctl.running && r.ctl.restartTx == d.ctl.restartTx
  {
    assert ResumeUp in Suspend(d, power).ctl.afterSuspend;
  }

  /** A suspended device is left alone; on resume the worker has something to do exactly if it was running or lost its power. */
  lemma SuspendHolds(d: Driver, power: bool)
    ensures var s := Next(d, Suspended(power)); var r := Next(s, Resumed);
      && s.tx == d.tx && s.ctl.forceQuit && (s.ctl.queueOn <==> d.ctl.queueOn && !d.ctl.running)
      && r.tx == d.tx && !r.ctl.forceQuit && (r.ctl.afterSuspend != {} <==> d.ctl.running || power)
      && (ResumePower in r.ctl.afterSuspend <==> power)
  {
    var s := Next(d, Suspended(power));
    assert ResumeUp in s.ctl.afterSuspend <==> d.ctl.running;
    assert ResumePower in s.ctl.afterSuspend <==> power;
  }

  lemma WorkerWakes(d: Driver)
    requires Kept(d.tx) && WakesUp(d.ctl) && d.ctl.afterSuspend != {}
    ensures var r := RestartWork(d, true);
      && Cleared(d.tx, r.tx) && r.ctl.queueOn && r.ctl.canState.ErrorActive?
      && !r.ctl.forceQuit && r.ctl.afterSuspend == {} && r.ctl.running == d.ctl.running
  {
    CleanClears(d.tx);
  }

  /** A running device is up again after suspend, resume and the worker, and what was in flight has failed. */
  lemma SuspendAndResume(d: Driver, power: bool)
    requires Inv(d) && d.ctl.running
    ensures var r := Next(Next(Next(d, Suspended(power)), Resumed), Restarted(true));
      Cleared(d.tx, r.tx) && Up(r) && r.ctl.queueOn && r.ctl.afterSuspend == {}
  {
    NotedDown(d, power);
    WorkerWakes(Next(Next(d, Suspended(power)), Resumed));
  }

  /** A device that was down is as before. */
  lemma SuspendWhenDown(d: Driver, power: bool)
    requires Inv(d) && !d.ctl.running && !d.ctl.restartTx
    ensures var r := Next(Next(Next(d, Suspended(power)), Resumed), Restarted(true));
      r == d.(ctl := d.ctl.(forceQuit := false, afterSuspend := {}))
  {
  }

  /** A new device is closed and idle, and opening it brings it up. */
  lemma FirstOpen(restartMs: nat)
    ensures var d := Run(restartMs, []);
      && d.ctl.closed && !d.ctl.running && !Busy(d.tx) && d.ctl.restartMs == restartMs
      && !d.ctl.queueOn && !d.ctl.restartTx && d.ctl.afterSuspend == {} && d.tx.accepted == [] && d.tx.ended == []
      && Up(Next(d, Opened(true))) && Next(d, Opened(true)).ctl.queueOn
  {
  }

  /** Stopping ends everything; opening brings an idle device up, or leaves it closed. */
  lemma StopAndOpen(d: Driver, ok: bool)
    requires Inv(d) && d.ctl.running
    ensures var s := Next(Next(d, StopFirst), StopLast); var r := Next(s, Opened(ok));
      && s.ctl.closed && !s.ctl.running && !s.ctl.queueOn && s.ctl.forceQuit && s.ctl.canState.Stopped?
      && s.tx.accepted == d.tx.accepted == Frames(s.tx.ended)
      && r.tx == s.tx && !r.ctl.forceQuit
      && (ok ==> Up(r) && r.ctl.queueOn && !r.ctl.closed && r.ctl.canState.ErrorActive?)
      && (!ok ==> r.ctl.closed && !r.ctl.running && !r.ctl.queueOn)
  {
    FlushKeeps(d.tx);
    CleanKeeps(FlushEcho(d.tx));
  }
}
