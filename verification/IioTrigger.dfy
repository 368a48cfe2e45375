/**
 Rounds of a trigger: a poll hands the event to every consumer slot, each slot completes
 once, and the last completion re-enables the trigger. Steps of all contexts interleave.
 */
module IioTrigger {
  /**
   useCount is the driver's counter. loops are the positions of all poll loops ever begun;
   outstanding the slots whose consumers have been dispatched and not reported yet; sawZero
   the contexts that found useCount zero and have not set it yet; pending those about to
   call try_reenable; owed the polls to be launched because an interrupt was missed.
   */
  datatype Trigger = Trigger(
    n: nat, reenables: bool, useCount: int, enabled: seq<bool>, loops: seq<nat>, outstanding: set<nat>,
    sawZero: nat, pending: nat, owed: nat, started: nat, ended: nat, called: nat)

  /** iio_trigger_notify_done, up to the call of try_reenable. */
  function Decrement(t: Trigger): Trigger {
    var d := t.(useCount := t.useCount - 1);
    if d.useCount != 0 then d
    else d.(ended := d.ended + 1, pending := d.pending + if d.reenables then 1 else 0)
  }

  /** One iteration of a poll loop: dispatch an enabled slot, complete a disabled one. */
  function Iterate(t: Trigger, k: nat): Trigger
    requires k < |t.loops|
  {
    var i := t.loops[k];
    if i >= t.n || i >= |t.enabled| then t
    else
      var d := t.(loops := t.loops[k := i + 1]);
      if t.enabled[i] then d.(outstanding := d.outstanding + {i}) else Decrement(d)
  }

  datatype Step =
    | Test                        // a poll reads the counter
    | Set                         // and, if that was zero, starts a round
    | Loop(k: nat)                // one iteration of some poll loop
    | Report(slot: nat)           // a dispatched consumer reports done
    | Reenable(missed: bool)      // try_reenable is called and returns
    | Owed                        // the poll for a missed interrupt begins
    | Enable(slot: nat, on: bool) // a consumer attaches or detaches

  function TestCount(t: Trigger): Trigger {
    if t.useCount == 0 then t.(sawZero := t.sawZero + 1) else t
  }

  function Next(t: Trigger, s: Step): Trigger {
    match s
    case Test => TestCount(t)
    case Set =>
      if t.sawZero == 0 then t
      else t.(sawZero := t.sawZero - 1, useCount := t.n, loops := t.loops + [0], started := t.started + 1)
    case Loop(k) => if k < |t.loops| then Iterate(t, k) else t
    case Report(slot) =>
      if slot in t.outstanding then Decrement(t.(outstanding := t.outstanding - {slot})) else t
    case Reenable(missed) =>
      if t.pending == 0 then t
      else t.(pending := t.pending - 1, called := t.called + 1, owed := t.owed + if missed then 1 else 0)
    case Owed => if t.owed == 0 then t else TestCount(t.(owed := t.owed - 1))
    case Enable(slot, on) => if slot < |t.enabled| then t.(enabled := t.enabled[slot := on]) else t
  }

  function Initial(n: nat, reenables: bool): Trigger {
    Trigger(n, reenables, 0, seq(n, _ => false), [], {}, 0, 0, 0, 0, 0, 0)
  }

  function Run(n: nat, reenables: bool, steps: seq<Step>): Trigger {
    if steps == [] then Initial(n, reenables)
    else Next(Run(n, reenables, steps[..|steps| - 1]), steps[|steps| - 1])
  }

  /** The slots of this round not yet handed out by its loop. */
  function Left(t: Trigger): int { if t.loops == [] then 0 else t.n - t.loops[|t.loops| - 1] }

  /**
   Only the last poll loop can be unfinished, and the counter is what is left of its round:
   the slots it has not come to and the consumers that have not reported.
   */
  ghost predicate OneRound(t: Trigger) {
    && |t.enabled| == t.n && t.n > 0
    && (forall k :: 0 <= k < |t.loops| - 1 ==> t.loops[k] == t.n)
    && (t.loops != [] ==> t.loops[|t.loops| - 1] <= t.n)
    && t.useCount == Left(t) + |t.outstanding|
    && (forall i :: i in t.outstanding ==> t.loops != [] && i < t.loops[|t.loops| - 1])
  }

  /** Every round but the one going on has ended, and each end leads to one call of try_reenable. */
  ghost predicate OncePerRound(t: Trigger) {
    && t.started == |t.loops|
    && t.started == t.ended + (if t.useCount > 0 then 1 else 0)
    && (t.reenables ==> t.ended == t.called + t.pending)
    && (!t.reenables ==> t.called == 0 && t.pending == 0)
  }

  ghost predicate Inv(t: Trigger) { OneRound(t) && OncePerRound(t) }

  lemma SmallerSet(s: set<nat>, i: nat)
    ensures i in s ==> |s - {i}| == |s| - 1
    ensures i !in s ==> |s + {i}| == |s| + 1
  {
  }

  lemma LoopKeeps(t: Trigger, k: nat)
    requires Inv(t) && k < |t.loops|
    ensures Inv(Iterate(t, k))
  {
    if t.loops[k] < t.n {
      assert k == |t.loops| - 1;
      SmallerSet(t.outstanding, t.loops[k]);
    }
  }

  lemma ReportKeeps(t: Trigger, slot: nat)
    requires Inv(t) && slot in t.outstanding
    ensures Inv(Next(t, Report(slot)))
  {
    SmallerSet(t.outstanding, slot);
  }

  /** The set comes too late: another round has begun since the counter was read. */
  predicate LateSet(t: Trigger, s: Step) { s.Set? && t.sawZero > 0 && t.useCount != 0 }

  lemma SetKeepsIff(t: Trigger)
    requires Inv(t) && t.sawZero > 0
    ensures Inv(Next(t, Set)) <==> t.useCount == 0
  {
    var r := Next(t, Set);
    assert |r.loops| - 1 == |t.loops| && r.loops[|r.loops| - 1] == 0;
    assert t.loops != [] ==> r.loops[|t.loops| - 1] == t.loops[|t.loops| - 1];
    assert |t.outstanding| == 0 ==> t.outstanding == {};
  }

  /** One step keeps the rounds apart exactly if it is not a late set. */
  lemma NextKeepsIff(t: Trigger, s: Step)
    requires Inv(t)
    ensures Inv(Next(t, s)) <==> !LateSet(t, s)
  {
    match s
    case Set => if t.sawZero > 0 { SetKeepsIff(t); }
    case Loop(k) => if k < |t.loops| { LoopKeeps(t, k); }
    case Report(slot) => if slot in t.outstanding { ReportKeeps(t, slot); }
    case _ =>
  }

  // ---------- runs ----------

  /** The rounds are apart all along a run. */
  ghost predicate AlwaysApart(n: nat, reenables: bool, steps: seq<Step>) {
    forall k :: 0 <= k <= |steps| ==> Inv(Run(n, reenables, steps[..k]))
  }

  ghost predicate NoLateSet(n: nat, reenables: bool, steps: seq<Step>) {
    forall k :: 0 <= k < |steps| ==> !LateSet(Run(n, reenables, steps[..k]), steps[k])
  }

  lemma InitialIsApart(n: nat, reenables: bool)
    requires n > 0
    ensures Inv(Run(n, reenables, [])) && Alone(Run(n, reenables, []))
  {
  }

  lemma LastPrefix<T>(steps: seq<T>, k: nat)
    requires k < |steps|
    ensures steps[..k + 1][..k] == steps[..k] && steps[..k + 1][k] == steps[k]
  {
  }

  lemma {:induction false} ApartUpTo(n: nat, reenables: bool, steps: seq<Step>, k: nat)
    requires n > 0 && k <= |steps| && NoLateSet(n, reenables, steps)
    ensures Inv(Run(n, reenables, steps[..k]))
  {
    if k == 0 {
      InitialIsApart(n, reenables);
    } else {
      ApartUpTo(n, reenables, steps, k - 1);
      LastPrefix(steps, k - 1);
      NextKeepsIff(Run(n, reenables, steps[..k - 1]), steps[k - 1]);
    }
  }

  /**
   In any interleaving the counter is what is left of one round, and try_reenable is called
   once for each round, if and only if every poll that read zero still finds zero when it sets.
   */
  lemma RoundsNeverOverlap(n: nat, reenables: bool, steps: seq<Step>)
    requires n > 0
    ensures AlwaysApart(n, reenables, steps) <==> NoLateSet(n, reenables, steps)
  {
    if NoLateSet(n, reenables, steps) {
      forall k | 0 <= k <= |steps| ensures Inv(Run(n, reenables, steps[..k])) {
        ApartUpTo(n, reenables, steps, k);
      }
    } else {
      var k :| 0 <= k < |steps| && LateSet(Run(n, reenables, steps[..k]), steps[k]);
      OverlapAt(n, reenables, steps, k);
    }
  }

  lemma OverlapAt(n: nat, reenables: bool, steps: seq<Step>, k: nat)
    requires k < |steps| && LateSet(Run(n, reenables, steps[..k]), steps[k])
    ensures !(Inv(Run(n, reenables, steps[..k])) && Inv(Run(n, reenables, steps[..k + 1])))
  {
    LastPrefix(steps, k);
    if Inv(Run(n, reenables, steps[..k])) { NextKeepsIff(Run(n, reenables, steps[..k]), steps[k]); }
  }

  // ---------- atomic polls ----------

  /** At most one poll is between its test and its set, and the counter has stayed zero for it. */
  ghost predicate Alone(t: Trigger) { t.sawZero <= 1 && (t.sawZero == 1 ==> t.useCount == 0) }

  /** A step that reads the counter. */
  predicate Reads(t: Trigger, s: Step) { s.Test? || (s.Owed? && t.owed > 0) }

  /** No poll reads the counter between another's test and set. */
  ghost predicate Atomic(n: nat, reenables: bool, steps: seq<Step>) {
    forall k :: 0 <= k < |steps| ==> Serial(Run(n, reenables, steps[..k]), steps[k])
  }

  predicate Serial(t: Trigger, s: Step) { Reads(t, s) ==> t.sawZero == 0 }

  lemma NextAloneIff(t: Trigger, s: Step)
    requires Inv(t) && Alone(t)
    ensures Inv(Next(t, s)) && Alone(Next(t, s)) <==> Serial(t, s)
  {
    NextKeepsIff(t, s);
    ZeroMeansOver(t);
  }

  lemma {:induction false} AloneUpTo(n: nat, reenables: bool, steps: seq<Step>, k: nat)
    requires n > 0 && k <= |steps| && Atomic(n, reenables, steps)
    ensures Inv(Run(n, reenables, steps[..k])) && Alone(Run(n, reenables, steps[..k]))
  {
    if k == 0 {
      InitialIsApart(n, reenables);
    } else {
      AloneUpTo(n, reenables, steps, k - 1);
      LastPrefix(steps, k - 1);
      assert Serial(Run(n, reenables, steps[..k - 1]), steps[k - 1]);
      NextAloneIff(Run(n, reenables, steps[..k - 1]), steps[k - 1]);
    }
  }

  ghost predicate AlwaysAlone(n: nat, reenables: bool, steps: seq<Step>) {
    forall k :: 0 <= k <= |steps| ==> Inv(Run(n, reenables, steps[..k])) && Alone(Run(n, reenables, steps[..k]))
  }

  lemma CrowdedAt(n: nat, reenables: bool, steps: seq<Step>, k: nat)
    requires k < |steps| && !Serial(Run(n, reenables, steps[..k]), steps[k])
    ensures var t, r := Run(n, reenables, steps[..k]), Run(n, reenables, steps[..k + 1]);
      !(Inv(t) && Alone(t) && Inv(r) && Alone(r))
  {
    var t := Run(n, reenables, steps[..k]);
    LastPrefix(steps, k);
    if Inv(t) && Alone(t) { NextAloneIff(t, steps[k]); }
  }

  /** Polls are alone and rounds apart all along a run if and only if no poll reads between another's test and set. */
  lemma AtomicPollsIff(n: nat, reenables: bool, steps: seq<Step>)
    requires n > 0
    ensures AlwaysAlone(n, reenables, steps) <==> Atomic(n, reenables, steps)
  {
    if Atomic(n, reenables, steps) {
      forall k | 0 <= k <= |steps| ensures Inv(Run(n, reenables, steps[..k])) && Alone(Run(n, reenables, steps[..k])) {
        AloneUpTo(n, reenables, steps, k);
      }
    } else {
      var k :| 0 <= k < |steps| && !Serial(Run(n, reenables, steps[..k]), steps[k]);
      CrowdedAt(n, reenables, steps, k);
    }
  }

  /** A consumer slot comes up only in the one round that has not ended, and not while it is still busy in it. */
  lemma DispatchedOnce(t: Trigger, k: nat)
    requires Inv(t) && k < |t.loops| && t.loops[k] < t.n
    ensures t.loops[k] !in t.outstanding && t.ended == k == |t.loops| - 1
    ensures t.useCount == t.n - t.loops[k] + |t.outstanding| > 0
  {
    assert k == |t.loops| - 1;
  }

  /** The slot that comes up is handed to its consumer if it has one, and counts as done at once if not. */
  lemma SlotIsServed(t: Trigger, k: nat)
    requires Inv(t) && k < |t.loops| && t.loops[k] < t.n
    ensures var i, r := t.loops[k], Next(t, Loop(k));
      && r.loops[k] == i + 1
      && (t.enabled[i] ==> r.outstanding == t.outstanding + {i} && r.useCount == t.useCount && r.ended == t.ended)
      && (!t.enabled[i] ==> r.outstanding == t.outstanding && r.useCount == t.useCount - 1)
      && r.ended == t.ended + (if r.useCount == 0 then 1 else 0)
      && r.pending == t.pending + (if r.useCount == 0 && t.reenables then 1 else 0)
  {
    DispatchedOnce(t, k);
  }

  /** A consumer's report counts once; the last one of a round ends it and is about to call try_reenable. */
  lemma ReportCounts(t: Trigger, slot: nat)
    requires Inv(t) && slot in t.outstanding
    ensures var r := Next(t, Report(slot));
      && r.outstanding == t.outstanding - {slot} && r.useCount == t.useCount - 1
      && r.ended == t.ended + (if r.useCount == 0 then 1 else 0)
      && r.pending == t.pending + (if r.useCount == 0 && t.reenables then 1 else 0)
  {
  }

  /** A new trigger has no consumer attached: its first poll is over by itself. */
  lemma {:induction false} NobodyAtFirst(n: nat, reenables: bool, slot: nat)
    requires slot < n
    ensures var t := Run(n, reenables, []); !t.enabled[slot] && Next(t, Enable(slot, true)).enabled[slot]
  {
  }

  /** When the counter is zero the round is over: every slot came up and every consumer has reported. */
  lemma ZeroMeansOver(t: Trigger)
    requires Inv(t)
    ensures t.useCount == 0 <==> t.outstanding == {} && forall k :: 0 <= k < |t.loops| ==> t.loops[k] == t.n
    ensures t.useCount == 0 ==> t.ended == t.started
  {
    if t.useCount == 0 { assert |t.outstanding| == 0; }
  }

  // ---------- missed interrupts ----------

  /** An answer of try_reenable that an interrupt was missed. */
  predicate TellsMissed(t: Trigger, s: Step) { s.Reenable? && s.missed && t.pending > 0 }

  /** The poll launched for one begins. */
  predicate Launches(t: Trigger, s: Step) { s.Owed? && t.owed > 0 }

  function CountSteps(n: nat, reenables: bool, steps: seq<Step>, p: (Trigger, Step) -> bool): nat {
    if steps == [] then 0
    else
      var k := |steps| - 1;
      CountSteps(n, reenables, steps[..k], p) + if p(Run(n, reenables, steps[..k]), steps[k]) then 1 else 0
  }

  /** A poll that finds no round under way. */
  predicate ReadsZero(t: Trigger, s: Step) { Reads(t, s) && t.useCount == 0 }

  /**
   No missed interrupt is lost, in any interleaving: the missed interrupts reported so far are
   the polls launched for them and those still owed, and every poll that found no round under
   way has started one or is about to.
   */
  lemma {:induction false} MissedAreOwed(n: nat, reenables: bool, steps: seq<Step>)
    ensures var t := Run(n, reenables, steps);
      && CountSteps(n, reenables, steps, TellsMissed) == CountSteps(n, reenables, steps, Launches) + t.owed
      && CountSteps(n, reenables, steps, ReadsZero) == t.started + t.sawZero
    decreases |steps|
  {
    if steps != [] {
      var k := |steps| - 1;
      MissedAreOwed(n, reenables, steps[..k]);
      NextOwes(Run(n, reenables, steps[..k]), steps[k]);
    }
  }

  lemma NextOwes(t: Trigger, s: Step)
    ensures var r := Next(t, s);
      && r.owed == t.owed + (if TellsMissed(t, s) then 1 else 0) - (if Launches(t, s) then 1 else 0)
      && r.started + r.sawZero == t.started + t.sawZero + (if ReadsZero(t, s) then 1 else 0)
  {
  }

  /** When a round has ended, the poll owed for a missed interrupt starts the next one, with every slot to come up. */
  lemma OwedStartsRound(t: Trigger)
    requires Inv(t) && t.owed > 0 && t.useCount == 0
    ensures var r := Next(Next(t, Owed), Set);
      && r.started == t.started + 1 && r.owed == t.owed - 1 && r.useCount == t.n && r.loops == t.loops + [0]
      && r.outstanding == {} && Inv(r)
  {
    ZeroMeansOver(t);
    SetKeepsIff(Next(t, Owed));
  }

  /** The code tests and sets in two operations: two polls at once make the rounds overlap. */
  lemma TwoPollsOverlap(n: nat, reenables: bool)
    requires n > 0
    ensures var t := Run(n, reenables, [Test, Test, Set, Set]);
      t.loops == [0, 0] && t.useCount == n && !Inv(t)
  {
    var a, b, c, d := [Test], [Test, Test], [Test, Test, Set], [Test, Test, Set, Set];
    assert d[..3] == c && c[..2] == b && b[..1] == a && a[..0] == [];
    var t0 := Initial(n, reenables);
    assert Run(n, reenables, a[..0]) == t0;
    assert Run(n, reenables, a) == t0.(sawZero := 1);
    assert Run(n, reenables, b) == t0.(sawZero := 2);
    assert Run(n, reenables, c) == t0.(sawZero := 1, useCount := n, loops := [0], started := 1);
  }
}
