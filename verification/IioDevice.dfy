/** The device as it runs: its list of buffers and its setup, changed in place with roll-back. */
module IioDevice {
  import opened Options
  import opened ScanLayout
  import opened IioDemux
  import opened IioScanBuffer
  import opened IioBuffers

  method MatchMask(avail: seq<Mask>, mask: Mask) returns (r: Option<Mask>)
    ensures r == Match(avail, mask)
  {
    var k := 0;
    while k < |mask| && !mask[k]
      invariant 0 <= k <= |mask| && forall j :: 0 <= j < k ==> !mask[j]
      decreases |mask| - k
    {
      k := k + 1;
    }
    if k == |mask| { return None; }
    var i := 0;
    while i < |avail|
      invariant 0 <= i <= |avail| && Match(avail[i..], mask) == Match(avail, mask)
    {
      assert avail[i..][1..] == avail[i + 1..];
      if Subset(mask, avail[i]) { return Some(avail[i]); }
      i := i + 1;
    }
    r := None;
  }

  class Iio {
    const n: nat
    const avail: Option<seq<Mask>>
    const widths: seq<nat>
    const canTrigger: bool
    const canHardware: bool
    var hasTrigger: bool
    var list: seq<ScanBuffer>
    var active: Option<Mask>
    var stamp: bool
    var mode: Mode
    ghost var known: set<ScanBuffer>   // the buffers there are, listed or not

    ghost function View(): Device<ScanBuffer>
      reads this, known
    {
      Device(n, avail, canTrigger, canHardware, hasTrigger, list,
             map b | b in known :: b.scanMask, map b | b in known :: b.timestamp, active, stamp, mode)
    }

    ghost predicate Valid()
      reads this, known
    {
      Inv(View()) && n < |widths| && Widths(widths)
    }

    /** iio_update_demux: every listed buffer's table; each is found to be a subset of the active mask. */
    method UpdateDemux()
      requires Valid() && active.Some?
      modifies known
      ensures View() == old(View())
      ensures forall b :: b in list ==> Planned(b)
    {
      for i := 0 to |list|
        invariant forall b :: b in known ==> b.scanMask == old(b.scanMask) && b.timestamp == old(b.timestamp)
        invariant forall b :: b in list[..i] ==> Planned(b)
      {
        var b := list[i];
        assert b in View().masks && View() == old(View());
        assert Subset(b.scanMask, active.value);
        b.UpdateDemux(active.value, widths);
        assert list[..i + 1] == list[..i] + [b];
      }
    }

    /** A buffer is ready to take scans of the active mask. */
    ghost predicate Planned(b: ScanBuffer)
      reads this`active, b, b.bounce
    {
      b.Valid() && active.Some? && b.plan == Some(Plan(active.value, b.scanMask, widths, b.timestamp))
    }

    /** While the device runs, every listed buffer is. */
    ghost predicate Fed()
      reads this, list, set b | b in list :: b.bounce
    {
      mode != Direct ==> forall b :: b in list ==> Planned(b)
    }

    method CompoundMask() returns (c: Mask, s: bool)
      requires Shape(View())
      ensures c == Asked(View()) && s == AnyStamp(View().stamps, list)
    {
      c, s := NoChannels(n), false;
      for i := 0 to |list|
        invariant |c| == n
        invariant forall k :: 0 <= k < n ==> (c[k] <==> exists b :: b in list[..i] && k < |b.scanMask| && b.scanMask[k])
        invariant s <==> exists b :: b in list[..i] && b.timestamp
      {
        var b := list[i];
        assert b in View().masks;
        assert list[..i + 1] == list[..i] + [b];
        c := Or(c, b.scanMask);
        s := s || b.timestamp;
      }
      assert list[..|list|] == list;
      forall k | 0 <= k < n ensures c[k] == Asked(View())[k] {
        if c[k] {
          var b :| b in list && b.scanMask[k];
          assert Subset(View().masks[b], Asked(View()));
        }
        if Asked(View())[k] {
          var b :| b in list && View().masks[b][k];
          assert b.scanMask[k];
        }
      }
    }

    method Remove(b: Option<ScanBuffer>)
      modifies this`list
      ensures View() == old(View()).(list := Out(old(list), b))
    {
      if b.None? { return; }
      var i := 0;
      while i < |list| && list[i] != b.value
        invariant 0 <= i <= |list| && forall j :: 0 <= j < i ==> list[j] != b.value
        decreases |list| - i
      {
        i := i + 1;
      }
      OutAt(list, b.value, i);
      if i < |list| { SetList(list[..i] + list[i + 1..]); }
    }

    method SetList(l: seq<ScanBuffer>)
      modifies this`list
      ensures View() == old(View()).(list := l)
    {
      list := l;
    }

    method SetMask(m: Option<Mask>)
      modifies this`active
      ensures View() == old(View()).(active := m)
    {
      active := m;
    }

    method Back(insert: Option<ScanBuffer>, prior: Option<Mask>)
      modifies this`list, this`active
      ensures View() == old(View()).(list := Out(old(list), insert), active := prior)
      ensures old(Rests(View(), insert)) ==> Fed()
    {
      Remove(insert);
      SetMask(prior);
    }

    method SetMode(m: Mode)
      modifies this`mode
      ensures View() == old(View()).(mode := m)
    {
      mode := m;
    }

    /** The driver's hooks and the choice of the mode. */
    method Enable(h: Hooks) returns (ok: bool)
      modifies this`mode
      ensures ok == (!HooksFail(old(View()), h) && h.postenable == 0)
      ensures View() == if HooksFail(old(View()), h) then old(View())
                        else if h.postenable != 0 then old(View()).(mode := Direct)
                        else old(View()).(mode := if canTrigger then Triggered else Hardware)
    {
      if h.preenable != 0 || (list != [] && h.requestUpdate != 0) || h.updateScanMode < 0 { return false; }
      if canTrigger {
        if !hasTrigger { return false; }
        SetMode(Triggered);
      } else if canHardware {
        SetMode(Hardware);
      } else {
        return false;
      }
      ok := h.postenable == 0;
      if !ok { SetMode(Direct); }
    }

    /** The demux tables, and then the hooks. */
    method Launch(h: Hooks) returns (ok: bool)
      requires Valid() && active.Some?
      modifies this`mode, known
      ensures ok == (!HooksFail(old(View()), h) && h.postenable == 0)
      ensures View() == if HooksFail(old(View()), h) then old(View())
                        else if h.postenable != 0 then old(View()).(mode := Direct)
                        else old(View()).(mode := if canTrigger then Triggered else Hardware)
      ensures forall b :: b in list ==> Planned(b)
    {
      ghost var before := View();
      UpdateDemux();
      assert View() == before;
      ok := Enable(h);
    }

    /** Start with the chosen setup; on failure take the new buffer out again and restore the mask. */
    method Start(insert: Option<ScanBuffer>, prior: Option<Mask>, h: Hooks, success: Outcome) returns (outcome: Outcome)
      requires Valid() && active.Some? && Rests(View(), insert)
      modifies this`list, this`active, this`mode, known
      ensures (View(), outcome) == WindUp(old(View()), insert, prior, h, success) && Fed()
    {
      var ok := Launch(h);
      if ok { return success; }
      Back(insert, prior);
      outcome := Failed;
    }

    /** Wind down what runs, if anything does. */
    method WindDown(h: Hooks) returns (ok: bool)
      modifies this`mode
      ensures ok == !StopsEarly(old(View()), h)
      ensures View() == if list == [] || h.predisable != 0 then old(View()) else old(View()).(mode := Direct)
      ensures old(Fed()) ==> Fed()
    {
      if list != [] {
        if h.predisable != 0 { return false; }
        SetMode(Direct);
        if h.postdisable != 0 { return false; }
      }
      ok := true;
    }

    method Relist(insert: Option<ScanBuffer>, remove: Option<ScanBuffer>)
      modifies this`list, this`active
      ensures View() == old(View()).(list := Relisted(old(View()), insert, remove),
                                     active := if avail.None? then None else old(active))
    {
      if avail.None? { SetMask(None); }
      Remove(remove);
      if insert.Some? { SetList([insert.value] + list); }
    }

    method SetActive(m: Option<Mask>, out: Option<ScanBuffer>)
      modifies this`list, this`active
      ensures View() == old(View()).(list := Out(old(list), out), active := m)
    {
      SetMask(m);
      Remove(out);
    }

    /** Choose the active mask, or turn the new buffer away; whether there is something to start. */
    method ChooseActive(compound: Mask, insert: Option<ScanBuffer>, prior: Option<Mask>) returns (start: bool, outcome: Outcome)
      modifies this`list, this`active
      ensures ChooseFor(old(View()), compound, insert, prior) ==
        if start then Choice.Start(View(), outcome) else End(View(), outcome)
    {
      if avail.None? {
        SetActive(Some(compound), None);
        return true, Done;
      }
      var m := MatchMask(avail.value, compound);
      if m.Some? {
        SetActive(m, None);
        return true, Done;
      }
      if insert.None? {
        SetActive(None, None);
        return false, Fault;
      }
      SetActive(prior, insert);
      return prior.Some?, Failed;
    }

    method SetStamp(s: bool)
      modifies this`stamp
      ensures View() == old(View()).(stamp := s)
    {
      stamp := s;
    }

    /** The wound-down device gets its new list, and it is worked out what the list asks for. */
    method Rearrange(insert: Option<ScanBuffer>, remove: Option<ScanBuffer>, ghost d: Device<ScanBuffer>)
      returns (compound: Mask)
      requires Shape(d) && (insert.Some? ==> insert.value in d.masks)
      requires View() == if d.list == [] then d else d.(mode := Direct)
      modifies this`list, this`active, this`stamp, this`mode
      ensures View() == Rearranged(d, insert, remove) && Shape(View())
      ensures list != [] ==> compound == Asked(View())
    {
      ghost var r := Rearranged(d, insert, remove);
      RearrangedShape(d, insert, remove);
      Relist(insert, remove);
      compound := [];
      if list == [] {
        SetMode(Direct);
        assert View() == r;
      } else {
        assert View() == r.(stamp := d.stamp);
        compound := Survey(r);
      }
    }

    method Survey(ghost r: Device<ScanBuffer>) returns (compound: Mask)
      requires Shape(r) && View() == r.(stamp := stamp) && r.stamp == AnyStamp(r.stamps, r.list)
      modifies this`stamp
      ensures View() == r && compound == Asked(r)
    {
      var s;
      compound, s := CompoundMask();
      SetStamp(s);
    }

    method Settle(compound: Mask, insert: Option<ScanBuffer>, prior: Option<Mask>, h: Hooks) returns (outcome: Outcome)
      requires n < |widths| && Widths(widths)
      requires var c := ChooseFor(View(), compound, insert, prior); c.Start? ==> Inv(c.d) && c.d.active.Some?
      requires Rests(View(), insert)
      modifies this`list, this`active, this`mode, known
      ensures (View(), outcome) == Finish(ChooseFor(old(View()), compound, insert, prior), insert, prior, h) && Fed()
    {
      ChoiceRests(View(), compound, insert, prior);
      var start;
      start, outcome := ChooseActive(compound, insert, prior);
      if start { outcome := Start(insert, prior, h, outcome); }
    }

    /** The wound-down device with its new list: choose the mask and start. */
    method Change(insert: Option<ScanBuffer>, remove: Option<ScanBuffer>, h: Hooks, ghost d: Device<ScanBuffer>)
      returns (outcome: Outcome)
      requires Inv(d) && Askable(d, insert, remove) && n < |widths| && Widths(widths) && !StopsEarly(d, h)
      requires View() == if d.list == [] then d else d.(mode := Direct)
      requires active == d.active
      modifies this`list, this`active, this`stamp, this`mode, known
      ensures (View(), outcome) == Update(d, insert, remove, h) && Fed()
    {
      var prior := active;
      var compound := Rearrange(insert, remove, d);
      ghost var r := Rearranged(d, insert, remove);
      if list == [] { return Done; }
      SettleReady(d, insert, remove);
      outcome := Settle(compound, insert, prior, h);
      assert (View(), outcome) == Finish(ChooseFor(r, Asked(r), insert, d.active), insert, d.active, h);
    }

    /** __iio_update_buffers */
    method UpdateBuffers(insert: Option<ScanBuffer>, remove: Option<ScanBuffer>, h: Hooks) returns (outcome: Outcome)
      requires Valid() && Askable(View(), insert, remove)
      modifies this`list, this`active, this`stamp, this`mode, known
      ensures (View(), outcome) == Update(old(View()), insert, remove, h)
      ensures old(Fed()) ==> Fed()
    {
      ghost var d := View();
      var ok := WindDown(h);
      if !ok {
        assert View() == Update(d, insert, remove, h).0;
        return Failed;
      }
      outcome := Change(insert, remove, h, d);
    }
  }

  /** What the wound-down device needs to settle. */
  lemma SettleReady<B>(d: Device<B>, insert: Option<B>, remove: Option<B>)
    requires Inv(d) && Askable(d, insert, remove)
    ensures var r := Rearranged(d, insert, remove);
      && Shape(r) && Rests(r, insert)
      && var c := ChooseFor(r, Asked(r), insert, d.active);
      c.Start? ==> Inv(c.d) && c.d.active.Some?
  {
    RearrangedShape(d, insert, remove);
    RearrangedRests(d, insert, remove);
    StartIsCovered(d, insert, remove);
  }

  lemma {:induction false} OutAt<B>(list: seq<B>, b: B, i: nat)
    requires i <= |list| && (forall j :: 0 <= j < i ==> list[j] != b) && (i < |list| ==> list[i] == b)
    ensures Out(list, Some(b)) == if i < |list| then list[..i] + list[i + 1..] else list
  {
    if i > 0 {
      var head, tail := list[0], list[1..];
      OutAt(tail, b, i - 1);
      assert Out(list, Some(b)) == [head] + Out(tail, Some(b));
    }
  }
}
