/** The driver as it runs: fields changed under its lock by the queue, the workers and the interrupt thread. */
module Mcp251xDriver {
  import opened Options
  import opened Mcp251xTx

  class Device {
    var txSkb: Option<Tx>
    var txLen: nat
    var echo: Option<Tx>
    var looped: seq<Tx>
    var txErrors: nat
    var txPackets: nat
    var txBytes: int
    var canState: CanState
    const restartMs: nat
    var forceQuit: bool
    var afterSuspend: set<Resume>
    var restartTx: bool
    var queueOn: bool
    var running: bool
    var closed: bool
    ghost var wire: Option<Tx>
    ghost var accepted: seq<Tx>
    ghost var ended: seq<End>
    ghost var spurious: nat
    ghost var echoClashes: nat

    ghost function ViewPath(): Path
      reads this
    {
      Path(txSkb, txLen, echo, wire, accepted, ended, looped, txErrors, txPackets, txBytes, spurious, echoClashes)
    }

    ghost function ViewControl(): Control
      reads this
    {
      Control(canState, restartMs, forceQuit, afterSuspend, restartTx, queueOn, running, closed)
    }

    ghost function View(): Driver
      reads this
    {
      Driver(ViewPath(), ViewControl())
    }

    constructor (ms: nat)
      ensures View() == Initial(ms)
    {
      txSkb, txLen, echo, looped := None, 0, None, [];
      txErrors, txPackets, txBytes := 0, 0, 0;
      canState, restartMs, forceQuit, afterSuspend, restartTx := Stopped, ms, false, {}, false;
      queueOn, running, closed := false, false, true;
      wire, accepted, ended, spurious, echoClashes := None, [], [], 0, 0;
    }

    method Clean()
      modifies this`txSkb, this`txLen, this`echo, this`txErrors, this`wire, this`ended
      ensures ViewPath() == Mcp251xTx.Clean(old(ViewPath()))
    {
      ended := ended + Doomed(wire) + Doomed(txSkb);
      wire := None;
      if txSkb.Some? || txLen > 0 { txErrors := txErrors + 1; }
      if txLen > 0 { FreeEcho(); }
      txSkb, txLen := None, 0;
    }

    method FreeEcho()
      modifies this`echo
      ensures echo == None
    {
      if echo.Some? { echo := None; }
    }

    method FlushEcho()
      modifies this`echo
      ensures ViewPath() == Mcp251xTx.FlushEcho(old(ViewPath()))
    {
      if echo.Some? { echo := None; }
    }

    method PutEcho(t: Tx, memory: bool)
      modifies this`echo, this`echoClashes
      ensures ViewPath() == Mcp251xTx.PutEcho(old(ViewPath()), t, memory)
    {
      if !t.loop { return; }
      if echo.None? {
        if memory { echo := Some(t); }
      } else {
        echoClashes := echoClashes + 1;
      }
    }

    method GetEcho()
      modifies this`echo, this`looped
      ensures echo == None
      ensures looped == old(looped) + if old(echo).Some? then [old(echo).value] else []
    {
      if echo.Some? {
        looped := looped + [echo.value];
        echo := None;
      }
    }

    method HardStartXmit(t: Tx, valid: bool) returns (busy: bool)
      modifies this`queueOn, this`txSkb, this`accepted
      ensures View() == StartXmit(old(View()), t, valid) && busy == Busy(old(ViewPath()))
    {
      if txSkb.Some? || txLen > 0 { return true; }
      busy := false;
      if !valid { return; }
      queueOn := false;
      txSkb := Some(t);
      accepted := accepted + [t];
    }

    method TxWorkHandler(memory: bool)
      modifies this
      ensures View() == TxWork(old(View()), memory)
    {
      if txSkb.Some? {
        if canState.BusOff? {
          Clean();
        } else {
          HandOver(txSkb.value, memory);
        }
      }
    }

    /** The frame goes to the controller and its echo to the echo slot. */
    method HandOver(t: Tx, memory: bool)
      requires txSkb == Some(t)
      modifies this`txSkb, this`txLen, this`wire, this`echo, this`echoClashes
      ensures ViewPath() == Send(old(ViewPath()), false, memory)
    {
      txLen := 1 + Length(t);
      wire := Some(t);
      PutEcho(t, memory);
      txSkb := None;
    }

    /** The part of the interrupt thread after the flags have been read. */
    method Round(f: Flags) returns (more: bool)
      modifies this`canState, this`forceQuit, this`queueOn
      modifies this`txPackets, this`txBytes, this`txLen, this`echo, this`looped, this`wire, this`ended, this`spurious
      ensures (View(), more) == IstRound(old(View()), f)
    {
      canState := NewState(f);
      if canState.BusOff? && restartMs == 0 {
        forceQuit := true;
        return false;
      }
      if !f.any { return false; }
      if f.tx { TxDone(); }
      more := true;
    }

    method TxDone()
      modifies this`txPackets, this`txBytes, this`txLen, this`echo, this`looped, this`wire, this`ended, this`spurious
      modifies this`queueOn
      ensures ViewPath() == Complete(old(ViewPath())) && ViewControl() == old(ViewControl()).(queueOn := true)
    {
      Transmitted();
      queueOn := true;
    }

    method Transmitted()
      modifies this`txPackets, this`txBytes, this`txLen, this`echo, this`looped, this`wire, this`ended, this`spurious
      ensures ViewPath() == Complete(old(ViewPath()))
    {
      txPackets := txPackets + 1;
      txBytes := txBytes + txLen - 1;
      if txLen > 0 {
        if wire.Some? { ended := ended + [Completed(wire.value, echo.Some?)]; }
        wire := None;
        GetEcho();
        txLen := 0;
      } else {
        spurious := spurious + 1;
      }
    }

    /** polls is what the controller's flag registers return, read by read; then nothing is pending. */
    method InterruptThread(polls: seq<Flags>)
      modifies this
      ensures View() == Ist(old(View()), polls)
    {
      var i := 0;
      var more := true;
      while more && !forceQuit
        invariant 0 <= i <= |polls|
        invariant Ist(old(View()), polls) == if more then Ist(View(), polls[i..]) else View()
        decreases |polls| - i, more
      {
        if i == |polls| {
          more := Round(QUIET);
        } else {
          assert polls[i..][1..] == polls[i + 1..];
          more := Round(polls[i]);
          i := i + 1;
        }
      }
    }

    method DoSetModeStart()
      modifies this
      ensures View() == SetModeStart(old(View()))
    {
      Clean();
      canState := ErrorActive;
      restartTx := true;
      if restartMs == 0 { afterSuspend := {ResumeRestart}; }
    }

    method Restart()
      modifies this
      ensures View() == CanRestart(old(View()))
    {
      FlushEcho();
      DoSetModeStart();
    }

    /** The part of the restart worker that follows a suspend or a bus-off. */
    method Resume(normal: bool)
      modifies this`txSkb, this`txLen, this`echo, this`txErrors, this`wire, this`ended
      modifies this`canState, this`queueOn, this`afterSuspend, this`forceQuit
      ensures View() == Revive(old(View()), normal)
    {
      if afterSuspend == {} { return; }
      if ResumeRestart in afterSuspend {
        if normal { canState := ErrorActive; }
      } else if ResumeUp in afterSuspend {
        Clean();
        if normal { canState := ErrorActive; }
        queueOn := true;
      }
      afterSuspend := {};
      forceQuit := false;
    }

    method RestartWorkHandler(normal: bool)
      modifies this
      ensures View() == RestartWork(old(View()), normal)
    {
      Resume(normal);
      if restartTx {
        restartTx := false;
        Clean();
        queueOn := true;
      }
    }

    /** The first part of ndo_stop: the network core has stopped the queue, the echo is flushed. */
    method StopFirst()
      modifies this`running, this`queueOn, this`echo, this`forceQuit
      ensures View() == StopBegin(old(View()))
    {
      running, queueOn := false, false;
      FlushEcho();
      forceQuit := true;
    }

    method StopLast()
      modifies this`txSkb, this`txLen, this`echo, this`txErrors, this`wire, this`ended, this`canState, this`closed
      ensures View() == StopEnd(old(View()))
    {
      Clean();
      canState := Stopped;
      closed := true;
    }

    method Forget()
      modifies this`forceQuit, this`txSkb, this`txLen
      ensures ViewPath() == old(ViewPath()).(txSkb := None, txLen := 0)
      ensures ViewControl() == old(ViewControl()).(forceQuit := false)
    {
      forceQuit := false;
      txSkb, txLen := None, 0;
    }

    method Start()
      modifies this`canState, this`queueOn, this`running, this`closed
      ensures ViewPath() == old(ViewPath())
      ensures ViewControl() == old(ViewControl()).(canState := ErrorActive, queueOn := true, running := true, closed := false)
    {
      canState := ErrorActive;
      queueOn, running, closed := true, true, false;
    }

    method OpenDevice(ok: bool)
      modifies this`forceQuit, this`txSkb, this`txLen, this`echo, this`canState, this`queueOn, this`running, this`closed
      ensures View() == Open(old(View()), ok)
    {
      Forget();
      if ok { Start(); } else { FlushEcho(); }
    }
  }
}
