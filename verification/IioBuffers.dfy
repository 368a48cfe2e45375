/**
 The buffers listening to one device: choosing the channels to scan when buffers come and
 go, and keeping every listed buffer's channels among the active ones.
 */
module IioBuffers {
  import opened Options
  import opened ScanLayout

  datatype Mode = Direct | Triggered | Hardware

  /**
   A device: the scan masks the hardware can do (none: any), the listed buffers, newest
   first, every buffer's mask, and the setup in force. B identifies a buffer.
   */
  datatype Device<B(==)> = Device(
    n: nat, avail: Option<seq<Mask>>, canTrigger: bool, canHardware: bool, hasTrigger: bool,
    list: seq<B>, masks: map<B, Mask>, stamps: map<B, bool>,
    active: Option<Mask>, stamp: bool, mode: Mode)

  // What the driver's hooks return; a hook that is missing returns zero.
  datatype Hooks = Hooks(predisable: int, postdisable: int, preenable: int, requestUpdate: int,
                         updateScanMode: int, postenable: int)

  // Fault: the code follows a null pointer.
  datatype Outcome = Done | Failed | Fault

  function NoChannels(n: nat): Mask { seq(n, _ => false) }

  predicate IsEmpty(mask: Mask) { forall k :: 0 <= k < |mask| ==> !mask[k] }

  function Or(a: Mask, b: Mask): (r: Mask)
    requires |a| == |b|
    ensures |r| == |a| && Subset(a, r) && Subset(b, r)
    ensures forall k :: 0 <= k < |a| ==> (r[k] <==> a[k] || b[k])
  {
    seq(|a|, k requires 0 <= k < |a| => a[k] || b[k])
  }

  /** iio_scan_mask_match: the first available mask that covers this one; none for an empty mask. */
  function Match(avail: seq<Mask>, mask: Mask): (r: Option<Mask>)
    ensures r.Some? ==> r.value in avail && Subset(mask, r.value)
    ensures r.None? <==> IsEmpty(mask) || forall a :: a in avail ==> !Subset(mask, a)
  {
    if IsEmpty(mask) || avail == [] then None
    else if Subset(mask, avail[0]) then Some(avail[0])
    else Match(avail[1..], mask)
  }

  ghost predicate Shape<B>(d: Device<B>) {
    && (forall b :: b in d.masks ==> |d.masks[b]| == d.n)
    && d.stamps.Keys == d.masks.Keys
    && (d.avail.Some? ==> forall m :: m in d.avail.value ==> |m| == d.n)
    && (forall b :: b in d.list ==> b in d.masks)
  }

  /** The union of the masks of some buffers. */
  function Compound<B>(n: nat, masks: map<B, Mask>, list: seq<B>): (r: Mask)
    requires forall b :: b in list ==> b in masks && |masks[b]| == n
    ensures |r| == n && forall b :: b in list ==> Subset(masks[b], r)
    ensures forall k :: 0 <= k < n && r[k] ==> exists b :: b in list && masks[b][k]
  {
    if list == [] then NoChannels(n)
    else
      assert list[0] in list;
      Or(masks[list[0]], Compound(n, masks, list[1..]))
  }

  function Asked<B>(d: Device<B>): Mask
    requires Shape(d)
  {
    Compound(d.n, d.masks, d.list)
  }

  function AnyStamp<B>(stamps: map<B, bool>, list: seq<B>): bool
    requires forall b :: b in list ==> b in stamps
  {
    exists b :: b in list && stamps[b]
  }

  function Out<B(==)>(list: seq<B>, b: Option<B>): (r: seq<B>)
    ensures forall x :: x in r ==> x in list
    ensures b.Some? ==> forall x :: x in list && x != b.value ==> x in r
  {
    if list == [] || b.None? then list
    else if list[0] == b.value then list[1..]
    else [list[0]] + Out(list[1..], b)
  }

  function In<B(==)>(list: seq<B>, b: Option<B>): seq<B> { if b.Some? then [b.value] + list else list }

  // ---------- __iio_update_buffers ----------

  /** The buffers after removal and insertion. */
  function Relisted<B(==)>(d: Device<B>, insert: Option<B>, remove: Option<B>): seq<B> {
    In(Out(d.list, remove), insert)
  }

  predicate StopsEarly<B(==)>(d: Device<B>, h: Hooks) { d.list != [] && (h.predisable != 0 || h.postdisable != 0) }

  predicate HooksFail<B(==)>(d: Device<B>, h: Hooks) {
    || h.preenable != 0
    || (d.list != [] && h.requestUpdate != 0)
    || h.updateScanMode < 0
    || (d.canTrigger && !d.hasTrigger)
    || (!d.canTrigger && !d.canHardware)
  }

  /** Start the device with the chosen setup, or go back to the old mask without the new buffer. */
  function WindUp<B(==)>(d: Device<B>, insert: Option<B>, prior: Option<Mask>, h: Hooks, success: Outcome): (Device<B>, Outcome) {
    var back := d.(list := Out(d.list, insert), active := prior);
    if HooksFail(d, h) then (back, Failed)
    else if h.postenable != 0 then (back.(mode := Direct), Failed)
    else (d.(mode := if d.canTrigger then Triggered else Hardware), success)
  }

  // Where the choice of the active mask leads: a setup to start, with the outcome it will
  // have, or an end.
  datatype Choice<B(==)> = Start(d: Device<B>, success: Outcome) | End(d: Device<B>, outcome: Outcome)

  /** Choose the active mask for what the listed buffers ask; prior is the mask that was active before. */
  function ChooseFor<B(==)>(d: Device<B>, compound: Mask, insert: Option<B>, prior: Option<Mask>): Choice<B> {
    if d.avail.None? then Start(d.(active := Some(compound)), Done)
    else
      var m := Match(d.avail.value, compound);
      if m.Some? then Start(d.(active := m), Done)
      else if insert.None? then End(d.(active := None), Fault)
      else if prior.Some? then Start(d.(list := Out(d.list, insert), active := prior), Failed)
      else End(d.(list := Out(d.list, insert), active := None), Failed)
  }

  function Choose<B(==)>(d: Device<B>, insert: Option<B>, prior: Option<Mask>): Choice<B>
    requires Shape(d)
  {
    ChooseFor(d, Asked(d), insert, prior)
  }

  /** The device while its buffers are rearranged, before the active mask is chosen. */
  function Rearranged<B(==)>(d: Device<B>, insert: Option<B>, remove: Option<B>): Device<B>
    requires Shape(d) && (insert.Some? ==> insert.value in d.masks)
  {
    var list := Relisted(d, insert, remove);
    d.(list := list, active := if d.avail.None? then None else d.active,
       mode := if d.list != [] || list == [] then Direct else d.mode,
       stamp := if list == [] then d.stamp else AnyStamp(d.stamps, list))
  }

  function Update<B(==)>(d: Device<B>, insert: Option<B>, remove: Option<B>, h: Hooks): (Device<B>, Outcome)
    requires Shape(d) && (insert.Some? ==> insert.value in d.masks)
  {
    if StopsEarly(d, h) then (if h.predisable != 0 then d else d.(mode := Direct), Failed)
    else
      var r := Rearranged(d, insert, remove);
      if r.list == [] then (r, Done)
      else
        Finish(Choose(r, insert, d.active), insert, d.active, h)
  }

  function Finish<B(==)>(c: Choice<B>, insert: Option<B>, prior: Option<Mask>, h: Hooks): (Device<B>, Outcome) {
    match c
    case Start(s, success) => WindUp(s, insert, prior, h, success)
    case End(e, outcome) => (e, outcome)
  }

  // ---------- what is kept ----------

  /** Every listed buffer's channels are active, and the active mask is one the hardware has. */
  ghost predicate Covered<B>(d: Device<B>) {
    && (d.list != [] ==> d.active.Some?)
    && (d.active.Some? ==>
         && |d.active.value| == d.n
         && (d.avail.Some? ==> d.active.value in d.avail.value)
         && forall b :: b in d.list && b in d.masks ==> Subset(d.masks[b], d.active.value))
  }

  ghost predicate Inv<B>(d: Device<B>) { Shape(d) && Covered(d) }

  ghost predicate Askable<B>(d: Device<B>, insert: Option<B>, remove: Option<B>) {
    && (insert.Some? ==> insert.value in d.masks && insert.value !in d.list)
    && (remove.Some? ==> remove.value in d.list)
  }

  lemma OutOfIn<B>(list: seq<B>, b: Option<B>)
    ensures Out(In(list, b), b) == list
  {
    if b.Some? { assert ([b.value] + list)[1..] == list; }
  }

  lemma RearrangedShape<B>(d: Device<B>, insert: Option<B>, remove: Option<B>)
    requires Shape(d) && (insert.Some? ==> insert.value in d.masks)
    ensures Shape(Rearranged(d, insert, remove))
  {
  }

  /** A mask that covers the compound mask covers every listed buffer. */
  lemma CoversAll<B>(d: Device<B>, m: Mask)
    requires Shape(d) && Subset(Asked(d), m) && (d.avail.Some? ==> m in d.avail.value)
    ensures Inv(d.(active := Some(m)))
  {
    forall b | b in d.list && b in d.masks ensures Subset(d.masks[b], m) {
    }
  }

  /** The mask that was active covers the buffers that stay. */
  lemma CoversStaying<B>(d: Device<B>, e: Device<B>)
    requires Inv(d) && Shape(e) && e.masks == d.masks && e.n == d.n && e.avail == d.avail
    requires e.active == d.active && forall b :: b in e.list ==> b in d.list
    ensures Inv(e)
  {
    if e.list != [] { assert e.list[0] in d.list; }
  }

  /** What is about to be started covers its buffers: the demux tables can be built. */
  lemma StartIsCovered<B>(d: Device<B>, insert: Option<B>, remove: Option<B>)
    requires Inv(d) && Askable(d, insert, remove)
    ensures var c := Choose(Rearranged(d, insert, remove), insert, d.active);
      c.Start? ==> Inv(c.d) && c.d.active.Some?
  {
    var r := Rearranged(d, insert, remove);
    RearrangedShape(d, insert, remove);
    OutOfIn(Out(d.list, remove), insert);
    var compound := Asked(r);
    var c := Choose(r, insert, d.active);
    if c.Start? {
      if r.avail.None? {
        CoversAll(r, compound);
      } else if Match(r.avail.value, compound).Some? {
        CoversAll(r, Match(r.avail.value, compound).value);
      } else {
        CoversStaying(d, c.d);
      }
    }
  }

  /** Both ways WindUp ends keep the cover: the failing one falls back to what was active before. */
  lemma WindUpKeeps<B>(d: Device<B>, s: Device<B>, insert: Option<B>, h: Hooks, success: Outcome)
    requires Inv(d) && Inv(s) && SameBuffers(d, s)
    requires forall b :: b in Out(s.list, insert) ==> b in d.list
    ensures Inv(WindUp(s, insert, d.active, h, success).0)
  {
    if HooksFail(s, h) || h.postenable != 0 {
      CoversStaying(d, WindUp(s, insert, d.active, h, success).0);
    }
  }

  lemma EndKeeps<B>(d: Device<B>, insert: Option<B>, remove: Option<B>)
    requires Inv(d) && Askable(d, insert, remove)
    ensures var c := Choose(Rearranged(d, insert, remove), insert, d.active);
      c.End? && c.outcome != Fault ==> Inv(c.d) && c.d.list == []
  {
    var r := Rearranged(d, insert, remove);
    OutOfIn(Out(d.list, remove), insert);
    var c := Choose(r, insert, d.active);
    if c.End? && c.outcome != Fault {
      assert d.list == [];
      assert Out(d.list, remove) == [];
    }
  }

  ghost predicate SameBuffers<B>(d: Device<B>, e: Device<B>) {
    e.masks == d.masks && e.stamps == d.stamps && e.n == d.n && e.avail == d.avail
  }

  lemma ChooseStays<B>(r: Device<B>, insert: Option<B>, prior: Option<Mask>)
    requires Shape(r)
    ensures var c := Choose(r, insert, prior);
      c.Start? ==> SameBuffers(r, c.d) && (c.d.list == r.list || c.d.list == Out(r.list, insert))
  {
    ChoiceStays(r, Asked(r), insert, prior);
  }

  lemma ChoiceStays<B>(r: Device<B>, compound: Mask, insert: Option<B>, prior: Option<Mask>)
    ensures var c := ChooseFor(r, compound, insert, prior);
      c.Start? ==> SameBuffers(r, c.d) && (c.d.list == r.list || c.d.list == Out(r.list, insert))
  {
    if r.avail.None? {
      assert ChooseFor(r, compound, insert, prior) == Start(r.(active := Some(compound)), Done);
    } else {
      var m := Match(r.avail.value, compound);
      if m.Some? {
        assert ChooseFor(r, compound, insert, prior) == Start(r.(active := m), Done);
      }
    }
  }

  lemma StartStays<B>(d: Device<B>, insert: Option<B>, remove: Option<B>)
    requires Shape(d) && Askable(d, insert, remove)
    ensures var c := Choose(Rearranged(d, insert, remove), insert, d.active);
      c.Start? ==> SameBuffers(d, c.d) && (forall b :: b in Out(c.d.list, insert) ==> b in d.list)
  {
    RearrangedShape(d, insert, remove);
    OutOfIn(Out(d.list, remove), insert);
    ChooseStays(Rearranged(d, insert, remove), insert, d.active);
  }

  /** Whatever happens short of the null pointer, every listed buffer's channels are active afterwards. */
  lemma UpdateKeeps<B>(d: Device<B>, insert: Option<B>, remove: Option<B>, h: Hooks)
    requires Inv(d) && Askable(d, insert, remove)
    ensures var (e, outcome) := Update(d, insert, remove, h); outcome != Fault ==> Inv(e)
  {
    if !StopsEarly(d, h) {
      var r := Rearranged(d, insert, remove);
      if r.list != [] {
        StartIsCovered(d, insert, remove);
        EndKeeps(d, insert, remove);
        StartStays(d, insert, remove);
        var c := Choose(r, insert, d.active);
        if c.Start? { WindUpKeeps(d, c.d, insert, h, c.success); }
      }
    }
  }

  /** The buffers that would be left are there, and none of them asks for a channel. */
  ghost predicate OnlyIdleLeft<B>(d: Device<B>, remove: Option<B>)
    requires Shape(d)
  {
    Out(d.list, remove) != [] && forall b :: b in Out(d.list, remove) ==> IsEmpty(d.masks[b])
  }

  lemma FinishFaults<B>(r: Device<B>, compound: Mask, insert: Option<B>, prior: Option<Mask>, h: Hooks)
    ensures Finish(ChooseFor(r, compound, insert, prior), insert, prior, h).1 == Fault <==>
      insert.None? && r.avail.Some? && Match(r.avail.value, compound).None?
  {
  }

  lemma NothingMatches<B>(d: Device<B>, remove: Option<B>)
    requires Inv(d) && d.avail.Some? && Out(d.list, remove) != []
    ensures Match(d.avail.value, Compound(d.n, d.masks, Out(d.list, remove))).None? <==> OnlyIdleLeft(d, remove)
  {
  }

  /**
   The code follows a null pointer exactly when a buffer is only removed from a device with
   fixed scan masks and the buffers that stay, at least one, ask for no channel.
   */
  lemma FaultIff<B>(d: Device<B>, insert: Option<B>, remove: Option<B>, h: Hooks)
    requires Inv(d) && Askable(d, insert, remove)
    ensures Update(d, insert, remove, h).1 == Fault <==>
      !StopsEarly(d, h) && insert.None? && d.avail.Some? && OnlyIdleLeft(d, remove)
  {
    var r := Rearranged(d, insert, remove);
    RearrangedShape(d, insert, remove);
    FinishFaults(r, Asked(r), insert, d.active, h);
    if insert.None? && d.avail.Some? && r.list != [] { NothingMatches(d, remove); }
  }

  lemma OutAbsent<B>(list: seq<B>, b: Option<B>)
    requires b.Some? ==> b.value !in list
    ensures Out(list, b) == list
  {
    if list != [] && b.Some? {
      assert list[0] in list;
      OutAbsent(list[1..], b);
    }
  }

  lemma ChoiceRollsBack<B>(r: Device<B>, compound: Mask, insert: Option<B>, prior: Option<Mask>, left: seq<B>)
    requires r.list == In(left, insert) && Out(left, insert) == left
    ensures var c := ChooseFor(r, compound, insert, prior);
      && Out(c.d.list, insert) == left
      && (c.Start? && c.success == Failed ==> c.d.list == left && c.d.active == prior)
      && (c.End? && c.outcome == Failed ==> c.d.list == left && c.d.active == prior)
  {
    OutOfIn(left, insert);
  }

  lemma WindUpRollsBack<B>(s: Device<B>, insert: Option<B>, prior: Option<Mask>, h: Hooks, success: Outcome, left: seq<B>)
    requires Out(s.list, insert) == left && (success == Failed ==> s.list == left && s.active == prior)
    ensures var (e, outcome) := WindUp(s, insert, prior, h, success);
      outcome == Failed ==> e.list == left && e.active == prior
  {
  }

  /** A failed update leaves the old mask in force and the newcomer out; what was to go is gone. */
  lemma FailureRollsBack<B>(d: Device<B>, insert: Option<B>, remove: Option<B>, h: Hooks)
    requires Inv(d) && Askable(d, insert, remove)
    ensures var (e, outcome) := Update(d, insert, remove, h);
      outcome == Failed ==>
        e.active == d.active && e.list == (if StopsEarly(d, h) then d.list else Out(d.list, remove))
  {
    if !StopsEarly(d, h) && Relisted(d, insert, remove) != [] {
      var left := Out(d.list, remove);
      var r := Rearranged(d, insert, remove);
      OutAbsent(left, insert);
      RearrangedShape(d, insert, remove);
      var compound := Asked(r);
      ChoiceRollsBack(r, compound, insert, d.active, left);
      var c := ChooseFor(r, compound, insert, d.active);
      if c.Start? { WindUpRollsBack(c.d, insert, d.active, h, c.success, left); }
    }
  }

  /** A device that runs has somebody listening. */
  predicate Attended<B>(d: Device<B>) { d.mode != Direct ==> d.list != [] }

  predicate CanStart<B>(d: Device<B>, h: Hooks) {
    h.preenable == 0 && h.updateScanMode >= 0 && h.postenable == 0 && (if d.canTrigger then d.hasTrigger else d.canHardware)
  }

  /** The only buffer asks for channels the device cannot scan, and an earlier mask is remembered. */
  ghost predicate Orphans<B>(d: Device<B>, insert: Option<B>, remove: Option<B>, h: Hooks)
    requires Shape(d) && Askable(d, insert, remove)
  {
    && !StopsEarly(d, h)
    && insert.Some? && d.avail.Some? && d.active.Some?
    && Out(d.list, remove) == []
    && Match(d.avail.value, Compound(d.n, d.masks, [insert.value])).None?
    && CanStart(d, h)
  }

  lemma {:induction false} ChosenAlone<B>(r: Device<B>, compound: Mask, insert: Option<B>, prior: Option<Mask>, left: seq<B>)
    requires r.list == In(left, insert) && r.list != []
    ensures var c := ChooseFor(r, compound, insert, prior);
      (c.Start? && c.d.list == []) <==>
        (insert.Some? && r.avail.Some? && prior.Some? && left == [] && Match(r.avail.value, compound).None?)
  {
    OutOfIn(left, insert);
  }

  lemma {:induction false} StartedAlone<B>(d: Device<B>, insert: Option<B>, remove: Option<B>)
    requires Shape(d) && Askable(d, insert, remove) && Relisted(d, insert, remove) != []
    ensures var c := Choose(Rearranged(d, insert, remove), insert, d.active);
      (c.Start? && c.d.list == []) <==>
        (insert.Some? && d.avail.Some? && d.active.Some? && Out(d.list, remove) == [] &&
         Match(d.avail.value, Compound(d.n, d.masks, [insert.value])).None?)
  {
    var left := Out(d.list, remove);
    var r := Rearranged(d, insert, remove);
    RearrangedShape(d, insert, remove);
    ChosenAlone(r, Asked(r), insert, d.active, left);
    if insert.Some? && left == [] {
      assert r.list == [insert.value];
    }
  }

  /** An attended device starts to run with nobody listening exactly when such a newcomer is turned away. */
  lemma OrphansIff<B>(d: Device<B>, insert: Option<B>, remove: Option<B>, h: Hooks)
    requires Inv(d) && Askable(d, insert, remove) && Attended(d)
    ensures !Attended(Update(d, insert, remove, h).0) <==> Orphans(d, insert, remove, h)
  {
    if !StopsEarly(d, h) && Relisted(d, insert, remove) != [] {
      StartedAlone(d, insert, remove);
      RearrangedShape(d, insert, remove);
      ChooseStays(Rearranged(d, insert, remove), insert, d.active);
      var c := Choose(Rearranged(d, insert, remove), insert, d.active);
      StartKeepsModes(d, insert, remove);
      if c.Start? { WindUpModes(c.d, insert, d.active, h, c.success); }
    }
  }

  lemma WindUpModes<B>(s: Device<B>, insert: Option<B>, prior: Option<Mask>, h: Hooks, success: Outcome)
    ensures var (e, _) := WindUp(s, insert, prior, h, success);
      if HooksFail(s, h) then e.mode == s.mode
      else if h.postenable != 0 then e.mode == Direct
      else e.mode != Direct && e.list == s.list
  {
  }

  lemma ChoiceKeepsModes<B>(r: Device<B>, compound: Mask, insert: Option<B>, prior: Option<Mask>)
    ensures var c := ChooseFor(r, compound, insert, prior);
      c.d.mode == r.mode && c.d.canTrigger == r.canTrigger && c.d.hasTrigger == r.hasTrigger && c.d.canHardware == r.canHardware
  {
  }

  lemma StartKeepsModes<B>(d: Device<B>, insert: Option<B>, remove: Option<B>)
    requires Shape(d) && Askable(d, insert, remove) && Attended(d)
    ensures var c := Choose(Rearranged(d, insert, remove), insert, d.active);
      c.d.mode == Direct && c.d.canTrigger == d.canTrigger && c.d.hasTrigger == d.hasTrigger && c.d.canHardware == d.canHardware
  {
    var r := Rearranged(d, insert, remove);
    RearrangedShape(d, insert, remove);
    ChoiceKeepsModes(r, Asked(r), insert, d.active);
  }

  /** Without the new buffer the device is either not running or has no buffer. */
  predicate Rests<B(==)>(d: Device<B>, insert: Option<B>) { d.mode == Direct || Out(d.list, insert) == [] }

  lemma ChoiceRests<B>(r: Device<B>, compound: Mask, insert: Option<B>, prior: Option<Mask>)
    requires Rests(r, insert)
    ensures var c := ChooseFor(r, compound, insert, prior);
      && (c.Start? ==> Rests(c.d, insert))
      && (c.End? ==> c.d.mode == Direct || c.d.list == [])
  {
    if r.mode != Direct { assert Out(Out(r.list, insert), insert) == []; }
  }

  lemma RearrangedRests<B>(d: Device<B>, insert: Option<B>, remove: Option<B>)
    requires Shape(d) && Askable(d, insert, remove)
    ensures Rests(Rearranged(d, insert, remove), insert)
  {
    if d.list == [] && insert.Some? { assert [insert.value][1..] == []; }
  }

  // ---------- runs ----------

  /** iio_update_buffers: nothing to do for buffers already as wanted. */
  function Requested<B(==)>(d: Device<B>, insert: Option<B>, remove: Option<B>, h: Hooks): (Device<B>, Outcome)
    requires Shape(d) && (insert.Some? ==> insert.value in d.masks)
  {
    if insert == remove then (d, Done)
    else
      var i := if insert.Some? && insert.value in d.list then None else insert;
      var r := if remove.Some? && remove.value !in d.list then None else remove;
      if i.None? && r.None? then (d, Done) else Update(d, i, r, h)
  }

  /** iio_scan_mask_set on a buffer that is not listed; valid is the driver's own check. */
  function SetBit<B(==)>(d: Device<B>, b: B, bit: nat, valid: bool): Device<B>
    requires Shape(d)
  {
    if b !in d.masks || b in d.list || bit >= d.n then d
    else
      var trial := d.masks[b][bit := true];
      if !valid || (d.avail.Some? && Match(d.avail.value, trial).None?) then d
      else d.(masks := d.masks[b := trial])
  }

  function ClearBit<B(==)>(d: Device<B>, b: B, bit: nat): Device<B>
    requires Shape(d)
  {
    if b !in d.masks || b in d.list || bit >= d.n then d
    else d.(masks := d.masks[b := d.masks[b][bit := false]])
  }

  /** A buffer that is not listed is asked for the timestamp, or not to. */
  function SetStamp<B(==)>(d: Device<B>, b: B, on: bool): Device<B> {
    if b !in d.masks || b in d.list then d else d.(stamps := d.stamps[b := on])
  }

  datatype Step<B> =
    | Change(insert: Option<B>, remove: Option<B>, h: Hooks)
    | Set(b: B, bit: nat, valid: bool)
    | Clear(b: B, bit: nat)
    | Stamp(b: B, on: bool)
    | Trigger(present: bool)

  /** One step; a fault ends the run. */
  ghost predicate Next<B>(d: Device<B>, s: Step<B>, e: Device<B>)
    requires Shape(d)
  {
    match s
    case Change(insert, remove, h) =>
      (insert.Some? ==> insert.value in d.masks) &&
      Requested(d, insert, remove, h).1 != Fault && e == Requested(d, insert, remove, h).0
    case Set(b, bit, valid) => e == SetBit(d, b, bit, valid)
    case Clear(b, bit) => e == ClearBit(d, b, bit)
    case Stamp(b, on) => e == SetStamp(d, b, on)
    case Trigger(present) => e == d.(hasTrigger := present)
  }

  lemma NextKeeps<B>(d: Device<B>, s: Step<B>, e: Device<B>)
    requires Inv(d) && Next(d, s, e)
    ensures Inv(e)
  {
    match s
    case Change(insert, remove, h) =>
      var i := if insert.Some? && insert.value in d.list then None else insert;
      var r := if remove.Some? && remove.value !in d.list then None else remove;
      UpdateKeeps(d, i, r, h);
    case Set(b, bit, valid) =>
    case Clear(b, bit) =>
    case Stamp(b, on) =>
    case Trigger(present) =>
  }

  ghost predicate IsRun<B>(states: seq<Device<B>>, steps: seq<Step<B>>) {
    && |states| == |steps| + 1
    && (forall k :: 0 <= k < |states| ==> Shape(states[k]))
    && forall k :: 0 <= k < |steps| ==> Next(states[k], steps[k], states[k + 1])
  }

  /** In every run from a device with no buffer listed, listed buffers have all their channels scanned. */
  lemma {:induction false} ListedAreCovered<B>(states: seq<Device<B>>, steps: seq<Step<B>>, k: nat)
    requires IsRun(states, steps) && k < |states|
    requires states[0].list == [] && states[0].active.None?
    ensures Inv(states[k])
  {
    if k > 0 {
      ListedAreCovered(states, steps, k - 1);
      NextKeeps(states[k - 1], steps[k - 1], states[k - 1 + 1]);
    }
  }

  // ---------- runs that end badly ----------

  const ALL_WELL := Hooks(0, 0, 0, 0, 0, 0)

  /** One channel, which is also the only available mask; buffer 1 asks for it, buffer 2 for nothing. */
  function OneChannel(list: seq<nat>, active: Option<Mask>, mode: Mode): Device<nat> {
    Device(1, Some([[true]]), true, false, true, list, map[1 := [true], 2 := [false]], map[1 := false, 2 := false],
           active, false, mode)
  }

  function Idle(): Device<nat> { OneChannel([], None, Direct) }

  function Scanning(list: seq<nat>): Device<nat> { OneChannel(list, Some([true]), Triggered) }

  lemma OneChannelMatches(list: seq<nat>)
    requires forall b :: b in list ==> b == 1 || b == 2
    ensures var c := Compound(1, Idle().masks, list);
      c == [1 in list] && Match([[true]], c) == (if 1 in list then Some([true]) else None)
  {
    var c := Compound(1, Idle().masks, list);
    assert Subset([true], [true]);
    if 1 in list { assert Subset(Idle().masks[1], c); }
    assert c == [c[0]];
  }

  /** An update that leaves buffer 1 in the list starts the device. */
  lemma Starts(d: Device<nat>, insert: Option<nat>, remove: Option<nat>)
    requires d == OneChannel(d.list, d.active, d.mode) && Shape(d) && Askable(d, insert, remove)
    requires 1 in Relisted(d, insert, remove) && forall b :: b in Relisted(d, insert, remove) ==> b == 1 || b == 2
    ensures Update(d, insert, remove, ALL_WELL) == (Scanning(Relisted(d, insert, remove)), Done)
  {
    var r := Rearranged(d, insert, remove);
    RearrangedShape(d, insert, remove);
    OneChannelMatches(r.list);
    assert !AnyStamp(d.stamps, r.list);
    assert Asked(r) == [true];
    assert Choose(r, insert, d.active) == Start(r.(active := Some([true])), Done);
  }

  lemma OneChannelShape(list: seq<nat>, active: Option<Mask>, mode: Mode)
    requires forall b :: b in list ==> b == 1 || b == 2
    ensures Shape(OneChannel(list, active, mode))
  {
  }

  lemma RunOfTwo<B>(a: Device<B>, b: Device<B>, c: Device<B>, s: Step<B>, t: Step<B>)
    requires Shape(a) && Shape(b) && Shape(c) && Next(a, s, b) && Next(b, t, c)
    ensures IsRun([a, b, c], [s, t])
  {
  }

  lemma FirstComes()
    ensures Shape(Idle()) && Shape(Scanning([1])) && Next(Idle(), Change(Some(1), None, ALL_WELL), Scanning([1]))
  {
    OneChannelShape([], None, Direct);
    OneChannelShape([1], Some([true]), Triggered);
    assert Relisted(Idle(), Some(1), None) == [1];
    Starts(Idle(), Some(1), None);
  }

  lemma {:induction false} SecondComes()
    ensures Shape(Scanning([1])) && Shape(Scanning([2, 1]))
    ensures Next(Scanning([1]), Change(Some(2), None, ALL_WELL), Scanning([2, 1]))
  {
    OneChannelShape([1], Some([true]), Triggered);
    OneChannelShape([2, 1], Some([true]), Triggered);
    assert Relisted(Scanning([1]), Some(2), None) == [2, 1];
    Starts(Scanning([1]), Some(2), None);
  }

  lemma {:induction false} FirstGoes()
    ensures Shape(Scanning([2, 1])) && Requested(Scanning([2, 1]), None, Some(1), ALL_WELL).1 == Fault
  {
    var d := Scanning([2, 1]);
    OneChannelShape([2, 1], Some([true]), Triggered);
    OnlySecondLeft();
    FaultIff(d, None, Some(1), ALL_WELL);
  }

  lemma OnlySecondLeft()
    ensures Out([2, 1], Some(1)) == [2] && OnlyIdleLeft(Scanning([2, 1]), Some(1))
  {
    assert [2, 1][1..] == [1] && Out([1], Some(1)) == [];
  }

  /** Buffer 1 comes, buffer 2 comes, buffer 1 goes: the code follows a null pointer. */
  lemma FaultIsReached()
    ensures IsRun([Idle(), Scanning([1]), Scanning([2, 1])],
                  [Change(Some(1), None, ALL_WELL), Change(Some(2), None, ALL_WELL)])
    ensures Shape(Scanning([2, 1])) && Requested(Scanning([2, 1]), None, Some(1), ALL_WELL).1 == Fault
  {
    FirstComes();
    SecondComes();
    FirstGoes();
    RunOfTwo(Idle(), Scanning([1]), Scanning([2, 1]), Change(Some(1), None, ALL_WELL), Change(Some(2), None, ALL_WELL));
  }

  /** The device after its only buffer has gone: the mask stays in force. */
  function Left(): Device<nat> { OneChannel([], Some([true]), Direct) }

  lemma OnlyOneGoes()
    ensures Shape(Scanning([1])) && Shape(Left()) && Next(Scanning([1]), Change(None, Some(1), ALL_WELL), Left())
  {
    OneChannelShape([1], Some([true]), Triggered);
    OneChannelShape([], Some([true]), Direct);
    assert Out([1], Some(1)) == [];
  }

  lemma TurnedAway()
    ensures Shape(Left()) && Update(Left(), Some(2), None, ALL_WELL) == (OneChannel([], Some([true]), Triggered), Failed)
  {
    var d := Left();
    OneChannelShape([], Some([true]), Direct);
    var r := Rearranged(d, Some(2), None);
    assert r.list == [2];
    RearrangedShape(d, Some(2), None);
    OneChannelMatches([2]);
    assert [2][1..] == [] && Out([2], Some(2)) == [];
    assert Choose(r, Some(2), d.active) == Start(r.(list := [], active := d.active), Failed);
    assert !AnyStamp(d.stamps, r.list);
  }

  /** Buffer 1 comes and goes, buffer 2 is turned away: the device runs with nobody listening. */
  lemma OrphanIsReached()
    ensures IsRun([Idle(), Scanning([1]), Left()],
                  [Change(Some(1), None, ALL_WELL), Change(None, Some(1), ALL_WELL)])
    ensures Shape(Left()) && !Attended(Requested(Left(), Some(2), None, ALL_WELL).0)
  {
    FirstComes();
    OnlyOneGoes();
    TurnedAway();
    RunOfTwo(Idle(), Scanning([1]), Left(), Change(Some(1), None, ALL_WELL), Change(None, Some(1), ALL_WELL));
  }
}
