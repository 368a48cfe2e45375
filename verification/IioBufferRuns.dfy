/** What an update of the buffers does when it is done, and what the buffers can count on from run to run. */
module IioBufferRuns {
  import opened Options
  import opened ScanLayout
  import opened IioBuffers

  // ---------- the mask in force ----------

  /** The first of the available masks that covers this one. */
  ghost predicate IsFirst(avail: seq<Mask>, mask: Mask, i: nat) {
    i < |avail| && Subset(mask, avail[i]) && forall j :: 0 <= j < i ==> !Subset(mask, avail[j])
  }

  lemma {:induction false} MatchIsFirst(avail: seq<Mask>, mask: Mask) returns (i: nat)
    requires Match(avail, mask).Some?
    ensures IsFirst(avail, mask, i) && Match(avail, mask) == Some(avail[i])
  {
    if Subset(mask, avail[0]) {
      i := 0;
    } else {
      i := MatchIsFirst(avail[1..], mask);
      i := i + 1;
    }
  }

  /** The mask that a device in this state can be given for its listed buffers, if there is one. */
  predicate Fits<B>(d: Device<B>)
    requires Shape(d)
  {
    d.avail.None? || Match(d.avail.value, Asked(d)).Some?
  }

  /** Whether every hook goes well, and there is a way to run. */
  predicate Runs<B>(d: Device<B>, h: Hooks) { CanStart(d, h) && h.requestUpdate == 0 }

  lemma HooksGoWell<B>(s: Device<B>, h: Hooks)
    requires s.list != []
    ensures !HooksFail(s, h) && h.postenable == 0 <==> Runs(s, h)
  {
  }

  lemma FinishDoneIff<B>(r: Device<B>, compound: Mask, insert: Option<B>, prior: Option<Mask>, h: Hooks)
    requires r.list != []
    ensures var (e, outcome) := Finish(ChooseFor(r, compound, insert, prior), insert, prior, h);
      && (outcome == Done <==> (r.avail.None? || Match(r.avail.value, compound).Some?) && Runs(r, h))
      && (outcome == Done ==> e == r.(mode := if r.canTrigger then Triggered else Hardware,
           active := if r.avail.None? then Some(compound) else Match(r.avail.value, compound)))
  {
    HooksGoWell(r, h);
  }

  /**
   An update of a device that could be wound down is done exactly if no buffer is left, or if
   there is a mask for those that are and every hook goes well.
   */
  lemma DoneIff<B>(d: Device<B>, insert: Option<B>, remove: Option<B>, h: Hooks)
    requires Inv(d) && Askable(d, insert, remove)
    ensures var r := Rearranged(d, insert, remove);
      && Shape(r)
      && (Update(d, insert, remove, h).1 == Done <==> !StopsEarly(d, h) && (r.list == [] || (Fits(r) && Runs(d, h))))
  {
    var r := Rearranged(d, insert, remove);
    RearrangedShape(d, insert, remove);
    if !StopsEarly(d, h) && r.list != [] { FinishDoneIff(r, Asked(r), insert, d.active, h); }
  }

  /** What a done update leaves: the buffers asked for, running on the mask they need, or a device at rest. */
  ghost predicate Served<B>(d: Device<B>, list: seq<B>, e: Device<B>)
    requires Shape(d)
  {
    && e.list == list && SameBuffers(d, e)
    && (list == [] ==> e.mode == Direct)
    && (list != [] ==>
         && e.mode == (if d.canTrigger then Triggered else Hardware)
         && (e.stamp <==> exists b :: b in list && b in d.stamps && d.stamps[b])
         && e.active.Some?
         && (d.avail.None? ==> ScansOnly(d, list, e.active.value))
         && (d.avail.Some? ==> exists i: nat, c: Mask :: ScansOnly(d, list, c) && IsFirst(d.avail.value, c, i) && e.active.value == d.avail.value[i]))
  }

  /** Exactly the channels that some listed buffer asks for. */
  ghost predicate ScansOnly<B>(d: Device<B>, list: seq<B>, mask: Mask)
    requires Shape(d)
  {
    |mask| == d.n && forall k :: 0 <= k < d.n ==> (mask[k] <==> exists b :: b in list && b in d.masks && d.masks[b][k])
  }

  lemma {:induction false} CompoundIsExact<B>(d: Device<B>, list: seq<B>)
    requires Shape(d) && forall b :: b in list ==> b in d.masks
    ensures ScansOnly(d, list, Compound(d.n, d.masks, list))
  {
    var c := Compound(d.n, d.masks, list);
    forall k | 0 <= k < d.n && exists b :: b in list && b in d.masks && d.masks[b][k] ensures c[k] {
      var b :| b in list && b in d.masks && d.masks[b][k];
      assert Subset(d.masks[b], c);
    }
  }

  /** A done update has done what was asked: the right buffers, the right mask, the timestamp if somebody wants it. */
  lemma {:induction false} DoneServes<B>(d: Device<B>, insert: Option<B>, remove: Option<B>, h: Hooks)
    requires Inv(d) && Askable(d, insert, remove) && Update(d, insert, remove, h).1 == Done
    ensures Served(d, Relisted(d, insert, remove), Update(d, insert, remove, h).0)
  {
    var r := Rearranged(d, insert, remove);
    RearrangedShape(d, insert, remove);
    if r.list != [] {
      FinishDoneIff(r, Asked(r), insert, d.active, h);
      CompoundIsExact(r, r.list);
      ScansSame(d, r, Asked(r));
      if d.avail.Some? { var i := MatchIsFirst(d.avail.value, Asked(r)); }
    }
  }

  lemma ScansSame<B>(d: Device<B>, r: Device<B>, mask: Mask)
    requires Shape(d) && Shape(r) && SameBuffers(d, r) && ScansOnly(r, r.list, mask)
    ensures ScansOnly(d, r.list, mask)
  {
  }

  /** A device that cannot be wound down keeps its buffers and mask; it still runs if its first hook already failed. */
  lemma EarlyStopKeeps<B>(d: Device<B>, insert: Option<B>, remove: Option<B>, h: Hooks)
    requires Inv(d) && Askable(d, insert, remove) && d.list != [] && (h.predisable != 0 || h.postdisable != 0)
    ensures var (e, outcome) := Update(d, insert, remove, h);
      && outcome == Failed && e.list == d.list && e.active == d.active && e.stamp == d.stamp && SameBuffers(d, e)
      && (h.predisable != 0 ==> e.mode == d.mode)
      && (h.predisable == 0 ==> e.mode == Direct)
  {
  }

  // ---------- timestamps ----------

  /** A listed buffer that wants the timestamp gets it from the device. */
  ghost predicate Stamped<B>(d: Device<B>) {
    forall b :: b in d.list && b in d.stamps && d.stamps[b] ==> d.stamp
  }

  /** No buffer has come, and neither the buffers' wishes nor the timestamp have changed. */
  ghost predicate OnlyFewer<B>(r: Device<B>, e: Device<B>) {
    SameBuffers(r, e) && e.stamp == r.stamp && forall b :: b in e.list ==> b in r.list
  }

  lemma ChoiceOnlyFewer<B>(r: Device<B>, compound: Mask, insert: Option<B>, prior: Option<Mask>)
    ensures OnlyFewer(r, ChooseFor(r, compound, insert, prior).d)
  {
  }

  lemma WindUpOnlyFewer<B>(s: Device<B>, insert: Option<B>, prior: Option<Mask>, h: Hooks, success: Outcome)
    ensures OnlyFewer(s, WindUp(s, insert, prior, h, success).0)
  {
  }

  lemma FinishOnlyFewer<B>(r: Device<B>, compound: Mask, insert: Option<B>, prior: Option<Mask>, h: Hooks)
    ensures OnlyFewer(r, Finish(ChooseFor(r, compound, insert, prior), insert, prior, h).0)
  {
    var c := ChooseFor(r, compound, insert, prior);
    ChoiceOnlyFewer(r, compound, insert, prior);
    if c.Start? { WindUpOnlyFewer(c.d, insert, prior, h, c.success); }
  }

  /** Every update keeps that, done or failed. */
  lemma UpdateStamps<B>(d: Device<B>, insert: Option<B>, remove: Option<B>, h: Hooks)
    requires Shape(d) && Stamped(d) && (insert.Some? ==> insert.value in d.masks)
    ensures Stamped(Update(d, insert, remove, h).0)
  {
    if !StopsEarly(d, h) {
      var r := Rearranged(d, insert, remove);
      RearrangedShape(d, insert, remove);
      if r.list != [] { FinishOnlyFewer(r, Asked(r), insert, d.active, h); }
    }
  }

  // ---------- masks the device can scan ----------

  /** With fixed scan masks, what a buffer asks for is covered by one of them. */
  ghost predicate Fit<B>(d: Device<B>) {
    d.avail.Some? ==> forall b :: b in d.masks ==> Alone(d.avail.value, d.masks[b])
  }

  predicate Alone(avail: seq<Mask>, mask: Mask) { IsEmpty(mask) || Match(avail, mask).Some? }

  /** When a channel is added: to a buffer at rest, if the driver agrees and a mask covers the result. */
  predicate MaySet<B>(d: Device<B>, b: B, bit: nat, valid: bool)
    requires Shape(d) && b in d.masks && bit < d.n
  {
    b !in d.list && valid && (d.avail.Some? ==> exists a :: a in d.avail.value && Subset(d.masks[b][bit := true], a))
  }

  /** Adding a channel turns on that one bit, exactly when it may; nothing else changes. */
  lemma SetBitIff<B>(d: Device<B>, b: B, bit: nat, valid: bool)
    requires Shape(d) && b in d.masks && bit < d.n
    ensures var r := SetBit(d, b, bit, valid);
      && r == d.(masks := r.masks) && r.masks.Keys == d.masks.Keys && |r.masks[b]| == d.n
      && (r.masks[b][bit] <==> d.masks[b][bit] || MaySet(d, b, bit, valid))
      && (forall k :: 0 <= k < d.n && k != bit ==> r.masks[b][k] == d.masks[b][k])
      && (forall c :: c in d.masks && c != b ==> r.masks[c] == d.masks[c])
  {
    assert d.masks[b][bit := true][bit];
    assert !IsEmpty(d.masks[b][bit := true]);
    if d.masks[b][bit] { assert d.masks[b][bit := true] == d.masks[b]; }
  }

  lemma SetFits<B>(d: Device<B>, b: B, bit: nat, valid: bool)
    requires Shape(d) && Fit(d)
    ensures Fit(SetBit(d, b, bit, valid))
  {
  }

  /** A buffer's channels can be taken away without asking: what is left is covered too. */
  lemma ClearFits<B>(d: Device<B>, b: B, bit: nat)
    requires Shape(d) && Fit(d)
    ensures Fit(ClearBit(d, b, bit))
  {
    if b in d.masks && b !in d.list && bit < d.n && d.avail.Some? {
      var less := d.masks[b][bit := false];
      if Match(d.avail.value, d.masks[b]).Some? {
        var a := Match(d.avail.value, d.masks[b]).value;
        assert a in d.avail.value && Subset(less, a);
      } else {
        assert IsEmpty(less);
      }
    }
  }

  /** Taking a channel away turns off that one bit of a buffer at rest. */
  lemma ClearBitIff<B>(d: Device<B>, b: B, bit: nat)
    requires Shape(d) && b in d.masks && bit < d.n
    ensures var r := ClearBit(d, b, bit);
      && r == d.(masks := r.masks) && r.masks.Keys == d.masks.Keys && |r.masks[b]| == d.n
      && (r.masks[b][bit] <==> d.masks[b][bit] && b in d.list)
      && (forall k :: 0 <= k < d.n && k != bit ==> r.masks[b][k] == d.masks[b][k])
      && (forall c :: c in d.masks && c != b ==> r.masks[c] == d.masks[c])
  {
  }

  lemma UpdateSame<B>(d: Device<B>, insert: Option<B>, remove: Option<B>, h: Hooks)
    requires Shape(d) && (insert.Some? ==> insert.value in d.masks)
    ensures SameBuffers(d, Update(d, insert, remove, h).0)
  {
    if !StopsEarly(d, h) {
      var r := Rearranged(d, insert, remove);
      RearrangedShape(d, insert, remove);
      if r.list != [] { FinishOnlyFewer(r, Asked(r), insert, d.active, h); }
    }
  }

  lemma NextServes<B>(d: Device<B>, s: Step<B>, e: Device<B>)
    requires Shape(d) && Stamped(d) && Fit(d) && Next(d, s, e)
    ensures Stamped(e) && Fit(e)
  {
    match s
    case Change(insert, remove, h) =>
      var i := if insert.Some? && insert.value in d.list then None else insert;
      var r := if remove.Some? && remove.value !in d.list then None else remove;
      UpdateStamps(d, i, r, h);
      UpdateSame(d, i, r, h);
    case Set(b, bit, valid) => SetFits(d, b, bit, valid);
    case Clear(b, bit) => ClearFits(d, b, bit);
    case Stamp(b, on) =>
    case Trigger(present) =>
  }

  /**
   In every run from a device with no buffer listed and none asking for anything: a listed
   buffer that wants the timestamp gets it, and every buffer alone could be served.
   */
  lemma {:induction false} ListedAreStamped<B>(states: seq<Device<B>>, steps: seq<Step<B>>, k: nat)
    requires IsRun(states, steps) && k < |states|
    requires states[0].list == [] && forall b :: b in states[0].masks ==> IsEmpty(states[0].masks[b])
    ensures Stamped(states[k]) && Fit(states[k])
  {
    if k > 0 {
      var j := k - 1;
      ListedAreStamped(states, steps, j);
      NextServes(states[j], steps[j], states[j + 1]);
    }
  }

  /** Such a buffer that asks for a channel can always be the first: the device starts if the hooks go well. */
  lemma FirstIsServed<B>(d: Device<B>, b: B, h: Hooks)
    requires Inv(d) && Fit(d) && d.list == [] && b in d.masks && !IsEmpty(d.masks[b])
    ensures Update(d, Some(b), None, h).1 == Done <==> Runs(d, h)
  {
    var r := Rearranged(d, Some(b), None);
    assert r.list == [b];
    DoneIff(d, Some(b), None, h);
    OnlyOneAsks(d.n, d.masks, b);
  }

  lemma OnlyOneAsks<B>(n: nat, masks: map<B, Mask>, b: B)
    requires b in masks && |masks[b]| == n
    ensures Compound(n, masks, [b]) == masks[b]
  {
    assert [b][1..] == [];
    var c := Compound(n, masks, [b]);
    forall k | 0 <= k < n ensures c[k] == masks[b][k] {
      if c[k] { var x :| x in [b] && masks[x][k]; }
    }
  }
}
