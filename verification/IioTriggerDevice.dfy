/** The trigger as it runs in one context: polls, completions, and a poll restarted from within a completion. */
module IioTriggerDevice {
  // A consumer slot was handed the event of a round.
  datatype Dispatch = Dispatch(round: nat, slot: nat)

  /** The dispatches of one round: every enabled slot once, in order. */
  function RoundOf(enabled: seq<bool>, round: nat, i: nat): seq<Dispatch>
    requires i <= |enabled|
  {
    if i == 0 then []
    else RoundOf(enabled, round, i - 1) + if enabled[i - 1] then [Dispatch(round, i - 1)] else []
  }

  /** The dispatches of the rounds after round a, up to round b. */
  function Rounds(enabled: seq<bool>, a: nat, b: nat): seq<Dispatch>
    requires a <= b
    decreases b - a
  {
    if a == b then [] else RoundOf(enabled, a + 1, |enabled|) + Rounds(enabled, a + 1, b)
  }

  /** How many of the answers say that an interrupt was missed. */
  function Missed(answers: seq<bool>): nat {
    if answers == [] then 0 else (if answers[0] then 1 else 0) + Missed(answers[1..])
  }

  class TriggerDevice {
    const n: nat
    const reenables: bool
    var useCount: int
    var enabled: seq<bool>
    var outstanding: set<nat>
    var called: nat
    ghost var started: nat
    ghost var ended: nat
    ghost var log: seq<Dispatch>

    /** The counter when left slots of the current round have not come up yet. */
    ghost predicate Counts(left: nat)
      reads this
    {
      && |enabled| == n > 0
      && useCount == left + |outstanding|
      && started == ended + (if useCount > 0 then 1 else 0)
      && called == (if reenables then ended else 0)
    }

    /** Between calls no poll loop is under way. */
    ghost predicate Valid()
      reads this
    {
      Counts(0)
    }

    constructor (slots: nat, ops: bool)
      requires slots > 0
      ensures Valid() && useCount == 0 && outstanding == {} && log == []
    {
      n, reenables, useCount, enabled, outstanding, called := slots, ops, 0, seq(slots, _ => false), {}, 0;
      started, ended, log := 0, 0, [];
    }

    /** A consumer attaches to a slot or detaches from it. */
    method Enable(slot: nat, on: bool)
      requires Valid() && slot < n
      modifies this`enabled
      ensures Valid() && enabled == old(enabled)[slot := on]
    {
      enabled := enabled[slot := on];
    }

    /** The last completion finds that an interrupt was missed. */
    predicate Restarts(missed: seq<bool>) { reenables && missed != [] && missed[0] }

    /**
     A completion that is not the last one of the round only counts. The last one ends the
     round, and if an interrupt was missed a new round begins at once: one for every answer
     that says so, and every enabled slot is dispatched once in each. Otherwise nothing is.
     missed are the answers of try_reenable to come; afterwards no interrupt is missed. */
    method NotifyDone(missed: seq<bool>, prompt: set<nat>, ghost left: nat) returns (rest: seq<bool>)
      requires |enabled| == n > 0 && useCount == left + 1 + |outstanding|
      requires started == ended + 1 && called == if reenables then ended else 0
      modifies this`useCount, this`outstanding, this`called, this`started, this`ended, this`log
      ensures |rest| <= |missed|
      ensures left + |old(outstanding)| > 0 ==>
        && Counts(left) && outstanding == old(outstanding) && log == old(log) && rest == missed
        && started == old(started) && ended == old(ended)
      ensures left + |old(outstanding)| == 0 ==>
        && Valid() && ended > old(ended) && started >= old(started)
        && log == old(log) + Rounds(enabled, old(started), started)
        && started == old(started) + Missed(missed) - Missed(rest)
        && (Restarts(missed) ==> started > old(started))
        && (!Restarts(missed) ==> started == old(started) && ended == old(ended) + 1)
        && (!Restarts(missed) ==> rest == (if reenables && missed != [] then missed[1..] else missed))
      decreases |missed|, 0
    {
      rest := missed;
      useCount := useCount - 1;
      if useCount == 0 {
        ended := ended + 1;
        if reenables {
          called := called + 1;
          if missed != [] {
            rest := missed[1..];
            if missed[0] { rest := Poll(rest, prompt); }
          }
        }
      }
    }

    /** One slot's turn: an enabled one is dispatched, any other is done at once. */
    method ServeSlot(i: nat, missed: seq<bool>, prompt: set<nat>) returns (rest: seq<bool>)
      requires i < n && Counts(n - i) && forall s :: s in outstanding ==> s < i
      modifies this`useCount, this`outstanding, this`called, this`started, this`ended, this`log
      ensures |rest| <= |missed| && started >= old(started) && ended >= old(ended) && Counts(n - i - 1)
      ensures i + 1 < n ==> started == old(started) && rest == missed && forall s :: s in outstanding ==> s < i + 1
      ensures log == old(log) + (if enabled[i] then [Dispatch(old(started), i)] else []) + Rounds(enabled, old(started), started)
      ensures started == old(started) + Missed(missed) - Missed(rest)
      decreases |missed|, 1
    {
      if !enabled[i] {
        rest := NotifyDone(missed, prompt, n - i - 1);
        return;
      }
      log := log + [Dispatch(started, i)];
      if i in prompt {
        rest := NotifyDone(missed, prompt, n - i - 1);
      } else {
        rest, outstanding := missed, outstanding + {i};
      }
    }

    /** A poll while a round is under way does nothing; otherwise every enabled slot is dispatched once. */
    method Poll(missed: seq<bool>, prompt: set<nat>) returns (rest: seq<bool>)
      requires Valid()
      modifies this`useCount, this`outstanding, this`called, this`started, this`ended, this`log
      ensures Valid() && |rest| <= |missed|
      ensures old(useCount) != 0 ==> unchanged(this) && rest == missed
      ensures old(useCount) == 0 ==>
        && started > old(started) && log == old(log) + Rounds(enabled, old(started), started)
        && started == old(started) + 1 + Missed(missed) - Missed(rest)
      ensures ended >= old(ended)
      decreases |missed|, 2
    {
      rest := missed;
      if useCount != 0 { return; }
      assert outstanding == {};
      useCount := n;
      started := started + 1;
      ghost var round := started;
      var i := 0;
      while i < n
        invariant 0 <= i <= n && |rest| <= |missed|
        invariant Counts(n - i)
        invariant started >= round && ended >= old(ended)
        invariant i < n ==> started == round && rest == missed && forall s :: s in outstanding ==> s < i
        invariant log == old(log) + RoundOf(enabled, round, i) + Rounds(enabled, round, started)
        invariant started == round + Missed(missed) - Missed(rest)
      {
        rest := ServeSlot(i, rest, prompt);
        i := i + 1;
      }
    }

    /** A dispatched consumer reports done; a slot that is not busy has nothing to report. */
    method Report(slot: nat, missed: seq<bool>, prompt: set<nat>) returns (rest: seq<bool>)
      requires Valid() && slot in outstanding
      modifies this`useCount, this`outstanding, this`called, this`started, this`ended, this`log
      ensures Valid() && |rest| <= |missed| && started >= old(started)
      ensures log == old(log) + Rounds(enabled, old(started), started)
      ensures started == old(started) + Missed(missed) - Missed(rest)
      ensures old(|outstanding|) > 1 ==>
        outstanding == old(outstanding) - {slot} && ended == old(ended) && started == old(started) && rest == missed
      ensures old(|outstanding|) == 1 ==> ended > old(ended) && (started > old(started) <==> Restarts(missed))
    {
      assert |outstanding - {slot}| == |outstanding| - 1;
      outstanding := outstanding - {slot};
      rest := NotifyDone(missed, prompt, 0);
    }
  }
}
