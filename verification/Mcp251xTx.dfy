/**
 The transmit side of the driver: one frame at a time between the queue, the controller
 and the echo slot, and how every accepted frame ends exactly once.
 */
module Mcp251xTx {
  import opened Options

  datatype Tx = Tx(id: nat, dlc: nat, loop: bool)

  datatype CanState = ErrorActive | ErrorWarning | ErrorPassive | BusOff | Stopped

  datatype Resume = ResumeUp | ResumeDown | ResumePower | ResumeRestart

  // How an accepted frame ended; looped if its echo was handed to the local sockets.
  datatype End = Completed(frame: Tx, looped: bool) | Failed(frame: Tx)

  // What one read of CANINTF and EFLG says: any flag, the transmit flags, the error bits.
  datatype Flags = Flags(any: bool, tx: bool, txbo: bool, txep: bool, rxep: bool, txwar: bool, rxwar: bool)

  const QUIET := Flags(false, false, false, false, false, false, false)

  /**
   The way of a frame: the driver's slot, the length handed to the controller, the echo slot;
   then what happened so far. wire is the frame txLen stands for; spurious counts transmit
   interrupts that came with nothing sent.
   */
  datatype Path = Path(
    txSkb: Option<Tx>, txLen: nat, echo: Option<Tx>, wire: Option<Tx>,
    accepted: seq<Tx>, ended: seq<End>, looped: seq<Tx>,
    txErrors: nat, txPackets: nat, txBytes: int, spurious: nat, echoClashes: nat)

  /** The driver's other fields; closed holds from the end of one stop to the next open. */
  datatype Control = Control(
    canState: CanState, restartMs: nat, forceQuit: bool, afterSuspend: set<Resume>, restartTx: bool,
    queueOn: bool, running: bool, closed: bool)

  datatype Driver = Driver(tx: Path, ctl: Control)

  function Length(t: Tx): nat { if t.dlc > 8 then 8 else t.dlc }

  function Doomed(o: Option<Tx>): seq<End> { if o.Some? then [Failed(o.value)] else [] }

  function Clean(p: Path): Path {
    p.(txErrors := p.txErrors + if p.txSkb.Some? || p.txLen > 0 then 1 else 0,
       echo := if p.txLen > 0 then None else p.echo,
       txSkb := None, txLen := 0, wire := None,
       ended := p.ended + Doomed(p.wire) + Doomed(p.txSkb))
  }

  predicate Busy(p: Path) { p.txSkb.Some? || p.txLen > 0 }

  function Accept(p: Path, t: Tx): Path { p.(txSkb := Some(t), accepted := p.accepted + [t]) }

  /** can_put_echo_skb; memory says whether the echo copy could be made. */
  function PutEcho(p: Path, t: Tx, memory: bool): Path {
    if !t.loop then p
    else if p.echo.Some? then p.(echoClashes := p.echoClashes + 1)
    else if memory then p.(echo := Some(t))
    else p
  }

  /** The worker hands the frame to the controller. */
  function Send(p: Path, busOff: bool, memory: bool): Path {
    if p.txSkb.None? then p
    else if busOff then Clean(p)
    else
      var t := p.txSkb.value;
      PutEcho(p.(txLen := 1 + Length(t), wire := Some(t)), t, memory).(txSkb := None)
  }

  /** The transmit interrupt: counters first, then the echo of what was sent, if anything was. */
  function Complete(p: Path): Path {
    var p1 := p.(txPackets := p.txPackets + 1, txBytes := p.txBytes + p.txLen - 1);
    if p.txLen == 0 then p1.(spurious := p.spurious + 1)
    else
      p1.(txLen := 0, wire := None, echo := None,
          looped := p.looped + (if p.echo.Some? then [p.echo.value] else []),
          ended := p.ended + if p.wire.Some? then [Completed(p.wire.value, p.echo.Some?)] else [])
  }

  function FlushEcho(p: Path): Path { p.(echo := None) }

  // ---------- the driver's entry points ----------

  /** A busy driver refuses the frame; an invalid one is dropped on the spot. */
  function StartXmit(d: Driver, t: Tx, valid: bool): Driver {
    if Busy(d.tx) || !valid then d else Driver(Accept(d.tx, t), d.ctl.(queueOn := false))
  }

  function TxWork(d: Driver, memory: bool): Driver {
    d.(tx := Send(d.tx, d.ctl.canState.BusOff?, memory))
  }

  function NewState(f: Flags): CanState {
    if f.txbo then BusOff
    else if f.txep || f.rxep then ErrorPassive
    else if f.txwar || f.rxwar then ErrorWarning
    else ErrorActive
  }

  /** One round of the interrupt thread; whether another follows. */
  function IstRound(d: Driver, f: Flags): (Driver, bool) {
    var ctl := d.ctl.(canState := NewState(f));
    if ctl.canState.BusOff? && ctl.restartMs == 0 then (d.(ctl := ctl.(forceQuit := true)), false)
    else if !f.any then (d.(ctl := ctl), false)
    else if f.tx then (Driver(Complete(d.tx), ctl.(queueOn := true)), true)
    else (d.(ctl := ctl), true)
  }

  /** The interrupt thread, until no flag is set. */
  function Ist(d: Driver, polls: seq<Flags>): Driver
    decreases |polls|
  {
    if d.ctl.forceQuit then d
    else if polls == [] then IstRound(d, QUIET).0
    else
      var (d1, more) := IstRound(d, polls[0]);
      if more then Ist(d1, polls[1..]) else d1
  }

  function SetModeStart(d: Driver): Driver {
    Driver(Clean(d.tx),
           d.ctl.(canState := ErrorActive, restartTx := true,
                  afterSuspend := if d.ctl.restartMs == 0 then {ResumeRestart} else d.ctl.afterSuspend))
  }

  /** The restart timer. */
  function CanRestart(d: Driver): Driver { SetModeStart(d.(tx := FlushEcho(d.tx))) }

  predicate WakesUp(ctl: Control) { ResumeUp in ctl.afterSuspend && ResumeRestart !in ctl.afterSuspend }

  /** The restart worker after a suspend; normal says whether the controller enters normal mode. */
  function Revive(d: Driver, normal: bool): Driver {
    if d.ctl.afterSuspend == {} then d
    else
      var up := WakesUp(d.ctl);
      Driver(if up then Clean(d.tx) else d.tx,
             d.ctl.(canState := if normal && (up || ResumeRestart in d.ctl.afterSuspend) then ErrorActive
                                else d.ctl.canState,
                    queueOn := d.ctl.queueOn || up, afterSuspend := {}, forceQuit := false))
  }

  function RestartWork(d: Driver, normal: bool): Driver {
    var d1 := Revive(d, normal);
    if d1.ctl.restartTx then Driver(Clean(d1.tx), d1.ctl.(restartTx := false, queueOn := true)) else d1
  }

  /** ndo_stop in two parts: the interrupt and the workers may still run in between. */
  function StopBegin(d: Driver): Driver {
    Driver(FlushEcho(d.tx), d.ctl.(running := false, queueOn := false, forceQuit := true))
  }

  function StopEnd(d: Driver): Driver {
    Driver(Clean(d.tx), d.ctl.(canState := Stopped, closed := true))
  }

  /** ok says whether interrupt, reset and setup succeeded. */
  function Open(d: Driver, ok: bool): Driver {
    var tx := d.tx.(txSkb := None, txLen := 0);
    if ok
    then Driver(tx, d.ctl.(forceQuit := false, canState := ErrorActive, queueOn := true, running := true, closed := false))
    else Driver(FlushEcho(tx), d.ctl.(forceQuit := false))
  }

  function Suspend(d: Driver, power: bool): Driver {
    d.(ctl := d.ctl.(forceQuit := true, queueOn := d.ctl.queueOn && !d.ctl.running,
         afterSuspend := {if d.ctl.running then ResumeUp else ResumeDown} + if power then {ResumePower} else {}))
  }

  function Wake(d: Driver): Driver {
    var kept := ResumePower in d.ctl.afterSuspend || ResumeUp in d.ctl.afterSuspend;
    d.(ctl := d.ctl.(forceQuit := false, afterSuspend := if kept then d.ctl.afterSuspend else {}))
  }

  datatype Step =
    | Xmit(t: Tx, valid: bool)
    | Work(memory: bool)
    | Interrupt(polls: seq<Flags>)
    | RestartTimer
    | Restarted(normal: bool)
    | StopFirst
    | StopLast
    | Opened(ok: bool)
    | Suspended(power: bool)
    | Resumed

  /** The network core transmits on a running device only, and opens only a closed one. */
  function Next(d: Driver, s: Step): Driver {
    match s
    case Xmit(t, valid) => if d.ctl.running then StartXmit(d, t, valid) else d
    case Work(memory) => TxWork(d, memory)
    case Interrupt(polls) => Ist(d, polls)
    case RestartTimer => CanRestart(d)
    case Restarted(normal) => RestartWork(d, normal)
    case StopFirst => if d.ctl.running then StopBegin(d) else d
    case StopLast => if !d.ctl.running then StopEnd(d) else d
    case Opened(ok) => if d.ctl.closed then Open(d, ok) else d
    case Suspended(power) => Suspend(d, power)
    case Resumed => Wake(d)
  }

  function Initial(restartMs: nat): Driver {
    Driver(Path(None, 0, None, None, [], [], [], 0, 0, 0, 0, 0),
           Control(Stopped, restartMs, false, {}, false, false, false, true))
  }

  function Run(restartMs: nat, steps: seq<Step>): Driver {
    if steps == [] then Initial(restartMs)
    else Next(Run(restartMs, steps[..|steps| - 1]), steps[|steps| - 1])
  }

  // ---------- what every run keeps ----------

  function Frames(ends: seq<End>): seq<Tx> {
    if ends == [] then [] else Frames(ends[..|ends| - 1]) + [ends[|ends| - 1].frame]
  }

  function Failures(ends: seq<End>): (n: nat)
    ensures n <= |ends|
  {
    if ends == [] then 0 else Failures(ends[..|ends| - 1]) + if ends[|ends| - 1].Failed? then 1 else 0
  }

  function Bytes(ends: seq<End>): nat {
    if ends == [] then 0
    else Bytes(ends[..|ends| - 1]) + if ends[|ends| - 1].Completed? then Length(ends[|ends| - 1].frame) else 0
  }

  function Echoes(ends: seq<End>): seq<Tx> {
    if ends == [] then []
    else
      var e := ends[|ends| - 1];
      Echoes(ends[..|ends| - 1]) + if e.Completed? && e.looped then [e.frame] else []
  }

  function InFlight(p: Path): seq<Tx> {
    if p.txSkb.Some? then [p.txSkb.value] else if p.wire.Some? then [p.wire.value] else []
  }

  /** The two slots are never both in use, and the echo slot is in use only for the frame being sent. */
  ghost predicate OneFrame(p: Path) {
    && !(p.txSkb.Some? && p.txLen > 0)
    && (p.txLen > 0 <==> p.wire.Some?)
    && (p.wire.Some? ==> p.txLen == 1 + Length(p.wire.value))
    && (p.echo.Some? ==> p.txLen > 0 && p.echo == p.wire && p.echo.value.loop)
    && p.echoClashes == 0
  }

  /** Every accepted frame has ended once, in order, or is the one in flight; the counters say so too. */
  ghost predicate Accounted(p: Path) {
    && p.accepted == Frames(p.ended) + InFlight(p)
    && p.txErrors == Failures(p.ended)
    && p.txPackets == |p.ended| - Failures(p.ended) + p.spurious
    && p.txBytes == Bytes(p.ended) - p.spurious
    && p.looped == Echoes(p.ended)
  }

  ghost predicate Kept(p: Path) { OneFrame(p) && Accounted(p) }

  ghost predicate Inv(d: Driver) {
    Kept(d.tx) && (d.ctl.closed ==> !d.ctl.running && !Busy(d.tx))
  }

  lemma Snoc(ends: seq<End>, e: End)
    ensures Frames(ends + [e]) == Frames(ends) + [e.frame]
    ensures Failures(ends + [e]) == Failures(ends) + if e.Failed? then 1 else 0
    ensures Bytes(ends + [e]) == Bytes(ends) + if e.Completed? then Length(e.frame) else 0
    ensures Echoes(ends + [e]) == Echoes(ends) + if e.Completed? && e.looped then [e.frame] else []
  {
    assert (ends + [e])[..|ends|] == ends;
  }

  /** A clean-up ends what is in flight as a failure, with one error counted, and frees its echo. */
  lemma CleanKeeps(p: Path)
    requires Kept(p)
    ensures var r := Clean(p);
      && Kept(r) && !Busy(r) && InFlight(r) == [] && r.echo.None?
      && Frames(r.ended) == Frames(p.ended) + InFlight(p)
      && (if InFlight(p) == [] then r.ended == p.ended else r.ended == p.ended + [Failed(InFlight(p)[0])])
      && r.txErrors == p.txErrors + |InFlight(p)|
  {
    if p.txSkb.Some? {
      var e := Failed(p.txSkb.value);
      Snoc(p.ended, e);
      assert Clean(p).ended == p.ended + [e];
    } else if p.wire.Some? {
      var e := Failed(p.wire.value);
      Snoc(p.ended, e);
      assert Clean(p).ended == p.ended + [e];
    } else {
      assert Clean(p).ended == p.ended;
    }
  }

  /** A transmit interrupt completes the frame that was sent, and loops back its echo if there is one. */
  lemma CompleteKeeps(p: Path)
    requires Kept(p)
    ensures var r := Complete(p);
      && Kept(r) && (!Busy(p) ==> !Busy(r))
      && (if p.txLen > 0
          then r.ended == p.ended + [Completed(p.wire.value, p.echo.Some?)] && !Busy(r) && r.echo.None?
          else r.ended == p.ended && r.txSkb == p.txSkb)
  {
    if p.txLen > 0 { Snoc(p.ended, Completed(p.wire.value, p.echo.Some?)); }
  }

  function Completions(ends: seq<End>): nat { |ends| - Failures(ends) }

  /** It advances packet and byte count by the completed frame's exactly if a frame was sent. */
  lemma CountersRightIff(p: Path)
    requires Kept(p)
    ensures var r := Complete(p);
      && r.txPackets - p.txPackets == Completions(r.ended) - Completions(p.ended)
      && r.txBytes - p.txBytes == Bytes(r.ended) - Bytes(p.ended)
      <==> p.txLen > 0
  {
    CompleteKeeps(p);
  }

  /** With nothing in flight one transmit interrupt counts a packet and takes a byte away. */
  lemma SpuriousInterruptCounts(restartMs: nat)
    ensures var p := Run(restartMs, [Opened(true), Interrupt([QUIET.(any := true, tx := true)])]).tx;
      p.txPackets == 1 && p.txBytes == -1 && p.accepted == [] && p.ended == []
  {
    var f := QUIET.(any := true, tx := true);
    var steps := [Opened(true), Interrupt([f])];
    assert steps[..1] == [Opened(true)] && steps[..1][..0] == [];
    var d := Next(Initial(restartMs), Opened(true));
    assert Run(restartMs, []) == Initial(restartMs) && Run(restartMs, steps[..1]) == d;
    assert [f][1..] == [] && Ist(d, [f]) == Ist(IstRound(d, f).0, []);
  }

  /** The worker hands the frame to the controller, with its echo put aside, or drops it when the bus is off. */
  lemma SendKeeps(p: Path, busOff: bool, memory: bool)
    requires Kept(p)
    ensures var r := Send(p, busOff, memory);
      && Kept(r) && (!Busy(p) ==> !Busy(r))
      && (p.txSkb.None? ==> r == p)
      && (p.txSkb.Some? && busOff ==> r.ended == p.ended + [Failed(p.txSkb.value)] && !Busy(r))
      && (p.txSkb.Some? && !busOff ==>
            r.ended == p.ended && r.txSkb.None? && r.wire == p.txSkb && r.txLen == 1 + Length(p.txSkb.value) &&
            r.echo == (if p.txSkb.value.loop && memory then p.txSkb else None))
  {
    if busOff { CleanKeeps(p); }
  }

  lemma RoundKeeps(d: Driver, f: Flags)
    requires Inv(d)
    ensures Inv(IstRound(d, f).0)
  {
    CompleteKeeps(d.tx);
  }

  lemma {:induction false} IstKeeps(d: Driver, polls: seq<Flags>)
    requires Inv(d)
    ensures Inv(Ist(d, polls))
    decreases |polls|
  {
    if !d.ctl.forceQuit {
      var f := if polls == [] then QUIET else polls[0];
      RoundKeeps(d, f);
      if polls != [] && IstRound(d, f).1 { IstKeeps(IstRound(d, f).0, polls[1..]); }
    }
  }

  lemma FlushKeeps(p: Path)
    requires Kept(p)
    ensures Kept(FlushEcho(p))
  {
  }

  lemma RestartKeeps(d: Driver, normal: bool)
    requires Inv(d)
    ensures Inv(RestartWork(d, normal))
  {
    CleanKeeps(d.tx);
    CleanKeeps(Clean(d.tx));
  }

  lemma AcceptKeeps(p: Path, t: Tx)
    requires Kept(p) && !Busy(p)
    ensures Kept(Accept(p, t))
  {
  }

  lemma NextKeeps(d: Driver, s: Step)
    requires Inv(d)
    ensures Inv(Next(d, s))
  {
    match s
    case Xmit(t, valid) => if !Busy(d.tx) { AcceptKeeps(d.tx, t); }
    case Work(memory) => SendKeeps(d.tx, d.ctl.canState.BusOff?, memory);
    case Interrupt(polls) => IstKeeps(d, polls);
    case RestartTimer =>
      FlushKeeps(d.tx);
      CleanKeeps(FlushEcho(d.tx));
    case Restarted(normal) => RestartKeeps(d, normal);
    case StopFirst => FlushKeeps(d.tx);
    case StopLast => CleanKeeps(d.tx);
    case Opened(ok) =>
      if d.ctl.closed {
        assert d.tx.(txSkb := None, txLen := 0) == d.tx;
        FlushKeeps(d.tx);
      }
    case Suspended(power) =>
    case Resumed =>
  }

  /** In every run at most one frame is in flight, and every other accepted frame has ended exactly once. */
  lemma {:induction false} OneFrameInFlight(restartMs: nat, steps: seq<Step>)
    ensures Inv(Run(restartMs, steps))
    decreases |steps|
  {
    if steps != [] {
      OneFrameInFlight(restartMs, steps[..|steps| - 1]);
      NextKeeps(Run(restartMs, steps[..|steps| - 1]), steps[|steps| - 1]);
    }
  }

  /** A stopped device owes nothing: every frame it accepted has completed or failed, in order. */
  lemma AllEndedWhenClosed(restartMs: nat, steps: seq<Step>)
    ensures var d := Run(restartMs, steps);
      d.ctl.closed ==> d.tx.accepted == Frames(d.tx.ended) && d.tx.echo.None?
  {
    OneFrameInFlight(restartMs, steps);
  }
}
