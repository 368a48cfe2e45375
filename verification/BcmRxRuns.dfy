/** What every run of a receive operation keeps: no update is forgotten. */
module BcmRxRuns {
  import opened Options
  import opened BcmFrames
  import opened BcmRx

  /** The frame most recently handed to the user for slot i. */
  function LastSent(log: seq<Notice>, i: nat): Option<Frame> {
    if log == [] then None
    else
      var n := log[|log| - 1];
      if n.Changed? && n.slot == i then Some(n.frame) else LastSent(log[..|log| - 1], i)
  }

  ghost predicate SlotKept(op: RxOp, i: nat)
    requires i < |op.last|
  {
    && (Throttled(op.last[i]) ==> op.thr.Some?)
    && (Received(op.last[i]) && !Throttled(op.last[i]) ==> LastSent(op.log, i) == Some(Strip(op.last[i])))
  }

  ghost predicate NothingForgotten(op: RxOp) {
    && Shape(op)
    && (op.nframes > 1 ==> op.last[0] == EMPTY)   // slot 0 is only the multiplex mask
    && forall i :: Lo(op) <= i < Hi(op) ==> SlotKept(op, i)
  }

  lemma {:induction false} FlushEffect(op: RxOp, i: nat, hi: nat, now: nat)
    requires i <= hi <= |op.last|
    ensures var r := FlushFrom(op, i, hi, now);
      && op.log <= r.log
      && (forall k :: |op.log| <= k < |r.log| ==> r.log[k].Changed? && r.log[k].at == now)
      && forall j :: 0 <= j < |op.last| ==>
        if i <= j < hi && Throttled(op.last[j])
        then r.last[j] == ClearThrottle(op.last[j]) && LastSent(r.log, j) == Some(Strip(op.last[j]))
        else r.last[j] == op.last[j] && LastSent(r.log, j) == LastSent(op.log, j)
    decreases hi - i
  {
    if i < hi {
      var op1 := FlushSlot(op, i, now);
      FlushEffect(op1, i + 1, hi, now);
      StatusBits(op.last[i]);
      if Throttled(op.last[i]) { assert op1.log[..|op1.log| - 1] == op.log; }
    }
  }

  lemma SendChangedKeeps(op: RxOp, i: nat, now: nat)
    requires Shape(op) && i < |op.last|
    ensures var r := SendChanged(op, i, now);
      && SlotKept(r, i) && !Throttled(r.last[i])
      && forall j :: 0 <= j < |op.last| && j != i && SlotKept(op, j) ==> SlotKept(r, j)
  {
    StatusBits(op.last[i]);
    var r := SendChanged(op, i, now);
    assert r.log[..|r.log| - 1] == op.log;
  }

  lemma UpdateKeeps(op: RxOp, i: nat, rx: Frame, now: nat)
    requires NothingForgotten(op) && InRange(op, i)
    ensures NothingForgotten(UpdateAndSend(op, i, rx, now))
  {
    StatusBits(rx);
    var stored := op.(last := op.last[i := MarkNew(rx)]);
    SendChangedKeeps(stored, i, now);
    var r := UpdateAndSend(op, i, rx, now);
    forall j | Lo(r) <= j < Hi(r) ensures SlotKept(r, j) {
      assert SlotKept(op, j);
      assert j != i ==> SlotKept(stored, j);
    }
  }

  lemma NotChangedKeeps(log: seq<Notice>, n: Notice, i: nat)
    requires !n.Changed?
    ensures LastSent(log + [n], i) == LastSent(log, i)
  {
    assert (log + [n])[..|log|] == log;
  }

  lemma ArriveKeeps(op: RxOp, rx: Frame, dev: bool, now: nat)
    requires NothingForgotten(op)
    ensures NothingForgotten(Arrive(op, rx, dev, now))
  {
    var op1 := op.(timer := None);
    assert forall i :: Lo(op1) <= i < Hi(op1) && SlotKept(op, i) ==> SlotKept(op1, i);
    if op.canId != rx.id {
    } else if op.flags.rtrFrame {
      var r := Arrive(op, rx, dev, now);
      forall i | Lo(r) <= i < Hi(r) ensures SlotKept(r, i) {
        assert SlotKept(op, i);
        NotChangedKeeps(op.log, Reply(op.frames[0], now), i);
      }
    } else {
      FilterKeeps(op1, rx, now);
      var op2 := Filter(op1, rx, now);
      var r := StartTimer(op2, now);
      assert forall i :: Lo(op2) <= i < Hi(op2) && SlotKept(op2, i) ==> SlotKept(r, i);
    }
  }

  lemma FilterKeeps(op: RxOp, rx: Frame, now: nat)
    requires NothingForgotten(op)
    ensures NothingForgotten(Filter(op, rx, now))
  {
    if op.flags.filterId {
      UpdateKeeps(op, 0, rx, now);
    } else if op.nframes == 1 {
      UpdateKeeps(op, 0, rx, now);
    } else if op.nframes > 1 {
      var i := FindMux(op.frames, op.nframes, rx, 1);
      if i < op.nframes { UpdateKeeps(op, i, rx, now); }
    }
  }

  lemma FlushKeeps(op: RxOp, now: nat)
    requires Shape(op) && (op.nframes > 1 ==> op.last[0] == EMPTY)
    requires forall i :: Lo(op) <= i < Hi(op) && !Throttled(op.last[i]) ==> SlotKept(op, i)
    ensures var r := Flush(op, now);
      && NothingForgotten(r)
      && forall i :: Lo(op) <= i < Hi(op) ==> !Throttled(r.last[i])
  {
    FlushEffect(op, Lo(op), Hi(op), now);
    var r := Flush(op, now);
    forall i | Lo(op) <= i < Hi(op) ensures SlotKept(r, i) && !Throttled(r.last[i]) {
      StatusBits(op.last[i]);
    }
  }

  lemma ThrExpireKeeps(op: RxOp, now: nat)
    requires NothingForgotten(op)
    ensures NothingForgotten(ThrExpire(op, now))
  {
    var r := ThrExpire(op, now);
    forall i | Lo(r) <= i < Hi(r) ensures SlotKept(r, i) { assert SlotKept(op, i); }
  }

  lemma ThrRunKeeps(op: RxOp, now: nat)
    requires NothingForgotten(op)
    ensures NothingForgotten(ThrRun(op, now))
  {
    if op.thrTasklet {
      var op1 := op.(thrTasklet := false);
      assert forall i :: Lo(op) <= i < Hi(op) && SlotKept(op, i) ==> SlotKept(op1, i);
      FlushKeeps(op1, now);
    }
  }

  lemma ClearedSlots(last: seq<Frame>, n: nat, i: nat)
    requires n <= |last| && i < |last|
    ensures ClearSlots(last, n)[i] == if i < n then EMPTY else last[i]
  {
  }

  lemma TimeoutKeeps(op: RxOp, now: nat)
    requires NothingForgotten(op)
    ensures NothingForgotten(TimeoutExpire(op, now)) && NothingForgotten(TimeoutRun(op, now))
  {
    var r := TimeoutExpire(op, now);
    forall i | Lo(r) <= i < Hi(r) ensures SlotKept(r, i) {
      assert SlotKept(op, i);
      ClearedSlots(op.last, op.nframes, i);
      StatusBits(EMPTY);
    }
    var r' := TimeoutRun(op, now);
    forall i | Lo(r') <= i < Hi(r') ensures SlotKept(r', i) {
      assert SlotKept(op, i);
      NotChangedKeeps(op.log, TimedOut(now), i);
    }
  }

  /** A slot that Configure meets is either cleared or kept, whatever the flags ask for. */
  lemma ConfigureKeeps(op: RxOp, m: Message, now: nat)
    requires |op.frames| == |op.last| && Hi(op) <= |op.last|
    requires m.flags.rtrFrame ==> op.nframes == 1
    requires m.flags.filterId <==> op.nframes == 0
    requires forall i :: Lo(op) <= i < Hi(op) ==> SlotKept(op, i)
    requires op.nframes > 0 ==> forall i :: 0 <= i < Hi(op) ==> op.last[i] == EMPTY
    ensures NothingForgotten(Configure(op, m, now))
  {
    var r := Configure(op, m, now);
    StatusBits(EMPTY);
    if !m.flags.rtrFrame && m.flags.setTimer {
      var op1 := op.(flags := m.flags, ival1 := 1000 * m.ival1Us, ival2 := 1000 * m.ival2Us,
                     timer := if m.ival1Us == 0 then None else op.timer, lastmsg := 0, thr := None);
      forall i | Lo(op1) <= i < Hi(op1) && !Throttled(op1.last[i]) ensures SlotKept(op1, i) {
        assert SlotKept(op, i);
      }
      FlushKeeps(op1, now);
      var op2 := Flush(op1, now);
      forall i | Lo(r) <= i < Hi(r) ensures SlotKept(r, i) { assert SlotKept(op2, i); }
    } else {
      forall i | Lo(r) <= i < Hi(r) ensures SlotKept(r, i) { assert SlotKept(op, i); }
    }
  }

  lemma SetupKeeps(op: RxOp, msg: Message, now: nat)
    requires NothingForgotten(op) && Complete(msg)
    ensures Setup(op, msg, now).Ok? ==> NothingForgotten(Setup(op, msg, now).value)
  {
    var m := Sanitize(msg);
    if Admissible(m) && m.nframes <= op.nframes {
      var op1 := op.(frames := m.frames[..m.nframes] + op.frames[m.nframes..],
                     last := ClearSlots(op.last, m.nframes), nframes := m.nframes);
      StatusBits(EMPTY);
      forall i | 0 <= i < Hi(op1) ensures SlotKept(op1, i) && (m.nframes > 0 ==> op1.last[i] == EMPTY) {
        ClearedSlots(op.last, m.nframes, i);
        if m.nframes == 0 {
          // slot 0 keeps its content; a multiplex operation never used it
          if op.nframes <= 1 { assert SlotKept(op, 0); }
        }
      }
      ConfigureKeeps(op1, m, now);
    }
  }

  lemma NextKeeps(s: State, a: Step)
    requires NothingForgotten(s.op)
    ensures NothingForgotten(Next(s, a).op)
  {
    match a
    case Tick(_) =>
    case Frames(rx, dev) => ArriveKeeps(s.op, rx, dev, s.now);
    case ThrottleExpires => ThrExpireKeeps(s.op, s.now);
    case ThrottleTasklet => ThrRunKeeps(s.op, s.now);
    case TimeoutExpires => TimeoutKeeps(s.op, s.now);
    case TimeoutTasklet => TimeoutKeeps(s.op, s.now);
    case Configures(msg) => if Complete(msg) { SetupKeeps(s.op, msg, s.now); }
  }

  /**
   In every run from the creation of an operation, whatever RX_SETUP messages, frames
   and (late or early) timers it interleaves: a throttled slot has an armed throttle
   timer, and any other received slot holds exactly the frame the user was sent last.
   */
  lemma {:induction false} NoUpdateForgotten(msg: Message, start: nat, steps: seq<Step>)
    requires Complete(msg) && Create(msg, start).Ok?
    ensures NothingForgotten(Run(State(Create(msg, start).value, start), steps).op)
    decreases |steps|
  {
    if steps == [] {
      var m := Sanitize(msg);
      var op := NewOp(m);
      StatusBits(EMPTY);
      ConfigureKeeps(op, m, start);
    } else {
      NoUpdateForgotten(msg, start, steps[..|steps| - 1]);
      NextKeeps(Run(State(Create(msg, start).value, start), steps[..|steps| - 1]), steps[|steps| - 1]);
    }
  }

  /** Once the throttle tasklet has run, the user has the latest content of every received slot. */
  lemma TaskletBringsUpToDate(op: RxOp, now: nat)
    requires NothingForgotten(op) && op.thrTasklet
    ensures var r := ThrRun(op, now);
      forall i :: Lo(r) <= i < Hi(r) && Received(r.last[i]) ==> LastSent(r.log, i) == Some(Strip(r.last[i]))
  {
    var op1 := op.(thrTasklet := false);
    assert forall i :: Lo(op) <= i < Hi(op) && SlotKept(op, i) ==> SlotKept(op1, i);
    FlushKeeps(op1, now);
    var r := ThrRun(op, now);
    forall i | Lo(r) <= i < Hi(r) && Received(r.last[i])
      ensures LastSent(r.log, i) == Some(Strip(r.last[i]))
    {
      assert SlotKept(r, i);
    }
  }

  /** The throttle expiry that finds throttled content schedules the tasklet and stays armed. */
  lemma ExpirySchedulesFlush(op: RxOp, now: nat)
    requires NothingForgotten(op) && op.thr.Some? && op.thr.value <= now
    ensures var r := ThrExpire(op, now);
      && r.thrTasklet
      && (r.thr.Some? <==> exists i :: Lo(op) <= i < Hi(op) && Throttled(op.last[i]))
      && (r.thr.Some? ==> r.thr.value > now)
      && (r.thr.None? ==> r.lastmsg == 0)
  {
  }

  lemma UpdateWrites(op: RxOp, i: nat, rx: Frame, now: nat)
    requires i < |op.last| && rx.dlc <= MAX_DLC
    ensures var r := UpdateAndSend(op, i, rx, now);
      && Received(r.last[i]) && Strip(r.last[i]) == rx
      && r.last == op.last[i := r.last[i]]
  {
    StatusBits(rx);
    StatusBits(MarkNew(rx));
  }

  /** The user's filter holds: slot content and frame agree on every bit the operation checks. */
  ghost predicate Tracks(op: RxOp, i: nat, rx: Frame, stored: Frame)
    requires i < |op.frames|
  {
    && Received(stored)
    && op.frames[i].data * rx.data == op.frames[i].data * stored.data
    && (op.flags.checkDlc ==> rx.dlc == stored.dlc & DLC_MASK)
  }

  lemma RelevantIsNotTracked(op: RxOp, i: nat, rx: Frame)
    requires i < |op.frames| && i < |op.last|
    ensures Relevant(op, i, rx) <==> !Tracks(op, i, rx, op.last[i])
  {
  }

  /**
   Content filtering is exact: a frame with the operation's identifier leaves its
   target slot agreeing with it on every masked bit (and its length, when that is
   checked), and the slot takes the frame only when it did not agree before.
   */
  lemma FilterTracksContent(op: RxOp, rx: Frame, dev: bool, now: nat)
    requires Shape(op) && !op.flags.rtrFrame && rx.id == op.canId && rx.dlc <= MAX_DLC
    requires InRange(op, Target(op, rx))
    ensures var i := Target(op, rx); var r := Arrive(op, rx, dev, now);
      && Tracks(op, i, rx, r.last[i])
      && r.last == op.last[i := r.last[i]]
      && (if op.flags.filterId || !Tracks(op, i, rx, op.last[i])
          then Strip(r.last[i]) == rx else r.last[i] == op.last[i])
  {
    var op1 := op.(timer := None);
    FilterWrites(op1, rx, now);
    RelevantIsNotTracked(op, Target(op, rx), rx);
    assert Arrive(op, rx, dev, now).last == Filter(op1, rx, now).last;
  }

  lemma FilterWrites(op: RxOp, rx: Frame, now: nat)
    requires Shape(op) && InRange(op, Target(op, rx)) && rx.dlc <= MAX_DLC
    ensures var i := Target(op, rx); var stored := Filter(op, rx, now).last;
      && Tracks(op, i, rx, stored[i])
      && stored == op.last[i := stored[i]]
      && (if op.flags.filterId || Relevant(op, i, rx)
          then Strip(stored[i]) == rx else stored[i] == op.last[i])
  {
    var i := Target(op, rx);
    FilterUpdatesTarget(op, rx, now);
    if op.flags.filterId || Relevant(op, i, rx) {
      UpdateWrites(op, i, rx, now);
    } else {
      RelevantIsNotTracked(op, i, rx);
    }
  }

  lemma FilterUpdatesTarget(op: RxOp, rx: Frame, now: nat)
    requires Shape(op) && InRange(op, Target(op, rx))
    ensures var i := Target(op, rx);
      Filter(op, rx, now) ==
        if op.flags.filterId || Relevant(op, i, rx) then UpdateAndSend(op, i, rx, now) else op
  {
  }
}
