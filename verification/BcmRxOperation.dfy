/** The receive operation as the driver keeps it: one record whose fields and arrays change in place. */
module BcmRxOperation {
  import opened Options
  import opened BcmFrames
  import opened Words
  import opened BcmRx

  class RxOperation {
    const canId: Word
    var flags: RxFlags
    var nframes: nat
    const frames: array<Frame>
    const last: array<Frame>
    var ival1: nat
    var ival2: nat
    var lastmsg: nat
    var timer: Option<nat>
    var timerTasklet: bool
    var thr: Option<nat>
    var thrTasklet: bool
    var log: seq<Notice>

    ghost function View(): RxOp
      reads this, frames, last
    {
      RxOp(canId, flags, nframes, frames[..], last[..], ival1, ival2, lastmsg,
           timer, timerTasklet, thr, thrTasklet, log)
    }

    ghost predicate Valid()
      reads this, frames, last
    {
      frames != last && Shape(View())
    }

    /** First RX_SETUP for an identifier: zeroed slots, then the configuration step. */
    constructor (msg: Message, now: nat)
      requires Complete(msg) && Admissible(Sanitize(msg))
      ensures Valid() && Create(msg, now) == Ok(View())
      ensures fresh(frames) && fresh(last)
    {
      var m := Sanitize(msg);
      var size := if m.nframes > 1 then m.nframes else 1;
      canId, flags, nframes := m.canId, m.flags, m.nframes;
      frames := new Frame[size];
      last := new Frame[size];
      ival1, ival2, lastmsg := 0, 0, 0;
      timer, timerTasklet, thr, thrTasklet, log := None, false, None, false, [];
      new;
      forall i | 0 <= i < size { frames[i] := if i < m.nframes then m.frames[i] else EMPTY; }
      forall i | 0 <= i < size { last[i] := EMPTY; }
      assert View() == NewOp(m);
      Configure(m, now);
    }

    method RxChanged(i: nat, now: nat)
      requires frames != last && i < last.Length
      modifies this`log, last
      ensures View() == SendChanged(old(View()), i, now)
    {
      last[i] := ClearThrottle(last[i]);
      log := log + [Changed(i, Strip(last[i]), now)];
    }

    method UpdateAndSend(i: nat, rx: Frame, now: nat)
      requires frames != last && i < last.Length
      modifies this`log, this`thr, this`lastmsg, last
      ensures View() == BcmRx.UpdateAndSend(old(View()), i, rx, now)
    {
      last[i] := MarkNew(rx);
      assert View() == old(View()).(last := old(last[..])[i := MarkNew(rx)]);
      if ival2 == 0 {
        RxChanged(i, now);
        return;
      }
      if thr.Some? { return; }
      if lastmsg != 0 && UsDelta(now, lastmsg) < ival2 / 1000 {
        thr := Some(lastmsg + ival2);
        return;
      }
      RxChanged(i, now);
      lastmsg := now;
    }

    method CompareToIndex(i: nat, rx: Frame, now: nat)
      requires frames != last && i < last.Length && i < frames.Length
      modifies this`log, this`thr, this`lastmsg, last
      ensures View() == CompareToSlot(old(View()), i, rx, now)
    {
      if !Received(last[i]) {
        UpdateAndSend(i, rx, now);
        return;
      }
      if frames[i].data * rx.data != frames[i].data * last[i].data {
        UpdateAndSend(i, rx, now);
        return;
      }
      if flags.checkDlc && rx.dlc != last[i].dlc & DLC_MASK {
        UpdateAndSend(i, rx, now);
      }
    }

    /** update says whether throttled content is sent or only counted. */
    method ThrottleFlush(update: bool, now: nat) returns (updated: nat)
      requires frames != last && Hi(View()) <= last.Length
      modifies this`log, last
      ensures updated == CountThrottled(old(last[..]), old(Lo(View())), old(Hi(View())))
      ensures View() == if update then FlushFrom(old(View()), old(Lo(View())), old(Hi(View())), now) else old(View())
    {
      updated := 0;
      var i := if nframes > 1 then 1 else 0;
      var hi := if nframes > 1 then nframes else 1;
      while i < hi
        invariant Lo(View()) <= i <= hi
        invariant nframes == old(nframes)
        invariant forall j :: i <= j < hi ==> last[j] == old(last[j])
        invariant updated + CountThrottled(old(last[..]), i, hi) == CountThrottled(old(last[..]), old(Lo(View())), hi)
        invariant update ==>
          FlushFrom(View(), i, hi, now) == FlushFrom(old(View()), old(Lo(View())), hi, now)
        invariant !update ==> View() == old(View())
      {
        if Throttled(last[i]) {
          if update { RxChanged(i, now); }
          updated := updated + 1;
        }
        i := i + 1;
      }
    }

    method ThrottleHandler(now: nat)
      requires Valid() && thr.Some? && thr.value <= now
      modifies this, last
      ensures Valid() && View() == ThrExpire(old(View()), now)
    {
      thrTasklet := true;
      var n := ThrottleFlush(false, now);
      if n > 0 {
        thr := Some(Forward(thr.value, now, ival2));
      } else {
        lastmsg := 0;
        thr := None;
      }
    }

    method ThrottleTasklet(now: nat)
      requires Valid() && thrTasklet
      modifies this, last
      ensures Valid() && View() == ThrRun(old(View()), now)
    {
      thrTasklet := false;
      var _ := ThrottleFlush(true, now);
    }

    /** Compare a frame with the slot it belongs to. */
    method CompareFrame(rx: Frame, now: nat)
      requires Valid()
      modifies this`log, this`thr, this`lastmsg, last
      ensures Valid() && View() == Filter(old(View()), rx, now)
    {
      if flags.filterId {
        UpdateAndSend(0, rx, now);
      } else if nframes == 1 {
        CompareToIndex(0, rx, now);
      } else if nframes > 1 {
        var i := 1;
        while i < nframes && frames[0].data * rx.data != frames[0].data * frames[i].data
          invariant 1 <= i <= nframes
          invariant FindMux(frames[..], nframes, rx, 1) == FindMux(frames[..], nframes, rx, i)
          decreases nframes - i
        {
          i := i + 1;
        }
        if i < nframes { CompareToIndex(i, rx, now); }
      }
    }

    method Handler(rx: Frame, dev: bool, now: nat)
      requires Valid()
      modifies this, last
      ensures Valid() && View() == Arrive(old(View()), rx, dev, now)
    {
      timer := None;
      if canId != rx.id { return; }
      if flags.rtrFrame {
        if dev { log := log + [Reply(frames[0], now)]; }
        return;
      }
      CompareFrame(rx, now);
      if !flags.noAutotimer && ival1 != 0 { timer := Some(now + ival1); }
    }

    method TimeoutHandler(now: nat)
      requires Valid() && timer.Some? && timer.value <= now
      modifies this, last
      ensures Valid() && View() == TimeoutExpire(old(View()), now)
    {
      timer, timerTasklet := None, true;
      if flags.announceResume {
        Clear(nframes);
      }
    }

    method TimeoutTasklet(now: nat)
      requires Valid() && timerTasklet
      modifies this
      ensures Valid() && View() == TimeoutRun(old(View()), now)
    {
      timerTasklet := false;
      log := log + [TimedOut(now)];
    }

    /** memset of the first n slots. */
    method Clear(n: nat)
      requires n <= last.Length && frames != last
      modifies last
      ensures last[..] == ClearSlots(old(last[..]), n)
    {
      forall i | 0 <= i < n { last[i] := EMPTY; }
    }

    method ConfigureReply(m: Message)
      requires frames != last && 0 < frames.Length
      modifies this`thr, this`timer, frames
      ensures View() == BcmRx.ConfigureReply(old(View()), m)
    {
      thr, timer := None, None;
      if m.flags.cpCanId || frames[0].id == canId {
        frames[0] := frames[0].(id := canId - {RTR_BIT});
      }
    }

    method SetIntervals(first: nat, second: nat)
      modifies this`ival1, this`ival2, this`timer, this`lastmsg, this`thr
      ensures View() == old(View()).(ival1 := first, ival2 := second, lastmsg := 0, thr := None,
                                     timer := if first == 0 then None else old(timer))
    {
      ival1, ival2 := first, second;
      if ival1 == 0 { timer := None; }
      lastmsg, thr := 0, None;
    }

    method ConfigureTimers(m: Message, now: nat)
      requires frames != last && Hi(View()) <= last.Length
      modifies this`ival1, this`ival2, this`timer, this`lastmsg, this`thr, this`log, last
      ensures View() == BcmRx.ConfigureTimers(old(View()), m, now)
    {
      if m.flags.setTimer {
        SetIntervals(1000 * m.ival1Us, 1000 * m.ival2Us);
        var _ := ThrottleFlush(true, now);
      }
      if m.flags.startTimer && ival1 != 0 { timer := Some(now + ival1); }
    }

    method Configure(m: Message, now: nat)
      requires frames != last && frames.Length == last.Length && Hi(View()) <= last.Length
      modifies this, frames, last
      ensures View() == BcmRx.Configure(old(View()), m, now)
    {
      flags := m.flags;
      if flags.rtrFrame {
        ConfigureReply(m);
      } else {
        ConfigureTimers(m, now);
      }
    }

    /** RX_SETUP of an existing operation: its outcome and, on an error, no change at all. */
    method Update(msg: Message, now: nat) returns (r: Result<()>)
      requires Valid() && Complete(msg)
      modifies this, frames, last
      ensures Valid()
      ensures var s := Setup(old(View()), msg, now);
        match s
        case Ok(op) => r == Ok(()) && View() == op
        case Err(e) => r == Err(e) && View() == old(View())
    {
      var m := Sanitize(msg);
      if !Admissible(m) { return Err(EINVAL); }
      if m.nframes > nframes { return Err(E2BIG); }
      if m.nframes > 0 {
        forall i | 0 <= i < m.nframes { frames[i] := m.frames[i]; }
        Clear(m.nframes);
      }
      nframes := m.nframes;
      assert frames[..] == m.frames[..m.nframes] + old(frames[..])[m.nframes..];
      assert last[..] == ClearSlots(old(last[..]), m.nframes);
      Configure(m, now);
      return Ok(());
    }
  }
}
