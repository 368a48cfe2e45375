/** The receive lists of all devices, their life with the devices, and what every run keeps. */
module CanRegistry {
  import opened Words
  import opened CanFilter
  import opened CanIndex

  // A null device stands for all devices; lists belong to CAN devices only.
  datatype Device = AnyDevice | Net(index: nat, isCan: bool)

  datatype Registry = Registry(alldev: Lists, devs: map<nat, Lists>)

  datatype Result = Done | NoDevice | NoMemory

  predicate Has(reg: Registry, dev: Device) { dev.Net? ==> dev.index in reg.devs }

  function Of(reg: Registry, dev: Device): Lists
    requires Has(reg, dev)
  {
    if dev.Net? then reg.devs[dev.index] else reg.alldev
  }

  function With(reg: Registry, dev: Device, d: Lists): Registry {
    if dev.Net? then reg.(devs := reg.devs[dev.index := d]) else reg.(alldev := d)
  }

  predicate Foreign(dev: Device) { dev.Net? && !dev.isCan }

  function Enter(reg: Registry, dev: Device, e: Entry): Registry
    requires Has(reg, dev)
  {
    With(reg, dev, Add(Of(reg, dev), e))
  }

  /** Take an entry out; the lists of a departed device go with their last entry. */
  function Leave(reg: Registry, dev: Device, e: Entry): Registry {
    if !Has(reg, dev) then reg
    else
      var before := Of(reg, dev);
      var d := Remove(before, e);
      if e.r in At(before, e.slot) && d.removeOnZero && d.entries == 0 && dev.Net?
      then reg.(devs := reg.devs - {dev.index})
      else With(reg, dev, d)
  }

  function Registered(reg: Registry, dev: Device, f: Filter, memory: bool): (Registry, Result) {
    if Foreign(dev) then (reg, NoDevice)
    else if !memory then (reg, NoMemory)
    else if !Has(reg, dev) then (reg, NoDevice)
    else (Enter(reg, dev, EntryOf(f)), Done)
  }

  function Unregistered(reg: Registry, dev: Device, f: Filter): Registry {
    if Foreign(dev) then reg else Leave(reg, dev, EntryOf(f))
  }

  // A device that already has lists stops the machine (BUG_ON); no step follows.
  function Announced(reg: Registry, dev: Device, memory: bool): Registry {
    if dev.AnyDevice? || !dev.isCan || !memory || dev.index in reg.devs then reg
    else reg.(devs := reg.devs[dev.index := NO_RECEIVERS])
  }

  function Withdrawn(reg: Registry, dev: Device): Registry {
    if dev.AnyDevice? || !dev.isCan || dev.index !in reg.devs then reg
    else
      var d := reg.devs[dev.index];
      if d.entries != 0 then With(reg, dev, d.(removeOnZero := true))
      else reg.(devs := reg.devs - {dev.index})
  }

  /** can_receive: the receivers for all devices, then those for this one. */
  function Received(reg: Registry, index: nat, rid: Word): seq<Receiver> {
    Delivered(reg.alldev, rid) + if index in reg.devs then Delivered(reg.devs[index], rid) else []
  }

  // ---------- the table of registrations, device by device ----------

  datatype Line = Line(entries: seq<Entry>, leaving: bool)
  datatype Table = Table(alldev: seq<Entry>, devs: map<nat, Line>)

  datatype Step =
    | Register(dev: Device, f: Filter, memory: bool)
    | Unregister(dev: Device, f: Filter)
    | Announce(dev: Device, memory: bool)
    | Withdraw(dev: Device)

  function Erase(entries: seq<Entry>, e: Entry): seq<Entry> {
    if e in entries then Without(entries, e) else entries
  }

  /** A departed device's line goes when its last registration does. */
  function Settle(t: Table, index: nat): Table {
    if index in t.devs && t.devs[index] == Line([], true) then t.(devs := t.devs - {index}) else t
  }

  function TableStep(t: Table, s: Step): Table {
    if s.dev.AnyDevice? then
      match s
      case Register(_, f, memory) => if memory then t.(alldev := [EntryOf(f)] + t.alldev) else t
      case Unregister(_, f) => t.(alldev := Erase(t.alldev, EntryOf(f)))
      case _ => t
    else if !s.dev.isCan then t
    else if s.dev.index !in t.devs then
      if s.Announce? && s.memory then t.(devs := t.devs[s.dev.index := Line([], false)]) else t
    else
      var i := s.dev.index;
      var line := t.devs[i];
      match s
      case Register(_, f, memory) =>
        if memory then t.(devs := t.devs[i := line.(entries := [EntryOf(f)] + line.entries)]) else t
      case Unregister(_, f) =>
        Settle(t.(devs := t.devs[i := line.(entries := Erase(line.entries, EntryOf(f)))]), i)
      case Announce(_, _) => t
      case Withdraw(_) => Settle(t.(devs := t.devs[i := line.(leaving := true)]), i)
  }

  function Next(reg: Registry, s: Step): Registry {
    match s
    case Register(dev, f, memory) => Registered(reg, dev, f, memory).0
    case Unregister(dev, f) => Unregistered(reg, dev, f)
    case Announce(dev, memory) => Announced(reg, dev, memory)
    case Withdraw(dev) => Withdrawn(reg, dev)
  }

  function Run(steps: seq<Step>): Registry {
    if steps == [] then Registry(NO_RECEIVERS, map[])
    else Next(Run(steps[..|steps| - 1]), steps[|steps| - 1])
  }

  function TableRun(steps: seq<Step>): Table {
    if steps == [] then Table([], map[])
    else TableStep(TableRun(steps[..|steps| - 1]), steps[|steps| - 1])
  }

  ghost predicate Follows(d: Lists, line: Line) {
    && Indexes(d, line.entries)
    && d.removeOnZero == line.leaving
    && (line.leaving ==> line.entries != [])
  }

  ghost predicate Agree(reg: Registry, t: Table) {
    && Follows(reg.alldev, Line(t.alldev, false))
    && reg.devs.Keys == t.devs.Keys
    && forall i :: i in reg.devs ==> Follows(reg.devs[i], t.devs[i])
  }

  lemma AddFollows(d: Lists, line: Line, e: Entry)
    requires Follows(d, line) && Placed(e)
    ensures Follows(Add(d, e), line.(entries := [e] + line.entries))
  {
    AddIndexes(d, line.entries, e);
  }

  lemma RemoveFollows(d: Lists, line: Line, e: Entry)
    requires Follows(d, line)
    ensures var l := Erase(line.entries, e); var r := Remove(d, e);
      && Indexes(r, l) && r.removeOnZero == line.leaving
      && (e.r in At(d, e.slot) <==> e in line.entries)
  {
    RemoveIndexes(d, line.entries, e);
    ProjectHas(line.entries, e);
  }

  /** One device's lists changed in step with its line. */
  lemma DeviceAgrees(reg: Registry, t: Table, i: nat, d: Lists, line: Line)
    requires Agree(reg, t) && Follows(d, line)
    ensures Agree(reg.(devs := reg.devs[i := d]), t.(devs := t.devs[i := line]))
  {
  }

  lemma GoneAgrees(reg: Registry, t: Table, i: nat)
    requires Agree(reg, t)
    ensures Agree(reg.(devs := reg.devs - {i}), t.(devs := t.devs - {i}))
  {
  }

  lemma RegisterAgrees(reg: Registry, t: Table, dev: Device, f: Filter)
    requires Agree(reg, t) && Has(reg, dev) && !Foreign(dev)
    ensures Agree(Enter(reg, dev, EntryOf(f)), TableStep(t, Register(dev, f, true)))
  {
    var e := EntryOf(f);
    if dev.AnyDevice? {
      AddFollows(reg.alldev, Line(t.alldev, false), e);
    } else {
      var d, line := reg.devs[dev.index], t.devs[dev.index];
      AddFollows(d, line, e);
      DeviceAgrees(reg, t, dev.index, Add(d, e), line.(entries := [e] + line.entries));
    }
  }

  lemma UnregisterAgrees(reg: Registry, t: Table, dev: Device, f: Filter)
    requires Agree(reg, t)
    ensures Agree(Unregistered(reg, dev, f), TableStep(t, Unregister(dev, f)))
  {
    var e := EntryOf(f);
    if dev.AnyDevice? {
      RemoveFollows(reg.alldev, Line(t.alldev, false), e);
    } else if dev.isCan && dev.index in reg.devs {
      LeaveAgrees(reg, t, dev.index, e);
    }
  }

  lemma LeaveAgrees(reg: Registry, t: Table, i: nat, e: Entry)
    requires Agree(reg, t) && i in reg.devs
    ensures var line := t.devs[i];
      Agree(Leave(reg, Net(i, true), e), Settle(t.(devs := t.devs[i := line.(entries := Erase(line.entries, e))]), i))
  {
    var d, line := reg.devs[i], t.devs[i];
    var d', line' := Remove(d, e), line.(entries := Erase(line.entries, e));
    RemoveFollows(d, line, e);
    if line' == Line([], true) {
      GoneAgrees(reg, t, i);
      assert t.devs[i := line'] - {i} == t.devs - {i};
    } else {
      DeviceAgrees(reg, t, i, d', line');
    }
  }

  lemma WithdrawAgrees(reg: Registry, t: Table, i: nat)
    requires Agree(reg, t) && i in reg.devs
    ensures Agree(Withdrawn(reg, Net(i, true)), Settle(t.(devs := t.devs[i := t.devs[i].(leaving := true)]), i))
  {
    var d, line := reg.devs[i], t.devs[i];
    if d.entries != 0 {
      DeviceAgrees(reg, t, i, d.(removeOnZero := true), line.(leaving := true));
    } else {
      GoneAgrees(reg, t, i);
      assert t.devs[i := line.(leaving := true)] - {i} == t.devs - {i};
    }
  }

  lemma StepAgrees(reg: Registry, t: Table, s: Step)
    requires Agree(reg, t)
    ensures Agree(Next(reg, s), TableStep(t, s))
  {
    match s
    case Register(dev, f, memory) => if memory && Has(reg, dev) && !Foreign(dev) { RegisterAgrees(reg, t, dev, f); }
    case Unregister(dev, f) => UnregisterAgrees(reg, t, dev, f);
    case Announce(dev, _) =>
      if dev.Net? { DeviceAgrees(reg, t, dev.index, NO_RECEIVERS, Line([], false)); }
    case Withdraw(dev) => if dev.Net? && dev.isCan && dev.index in reg.devs { WithdrawAgrees(reg, t, dev.index); }
  }

  /** In every run the lists of every device hold exactly the registrations in force. */
  lemma {:induction false} RunAgrees(steps: seq<Step>)
    ensures Agree(Run(steps), TableRun(steps))
    decreases |steps|
  {
    if steps != [] {
      RunAgrees(steps[..|steps| - 1]);
      StepAgrees(Run(steps[..|steps| - 1]), TableRun(steps[..|steps| - 1]), steps[|steps| - 1]);
    }
  }

  function Scanned(t: Table, index: nat, rid: Word): multiset<Receiver> {
    multiset(Scan(t.alldev, rid)) + if index in t.devs then multiset(Scan(t.devs[index].entries, rid)) else multiset{}
  }

  /** In every run a frame reaches exactly the receivers a scan of the table would reach. */
  lemma {:induction false} ReceiveIsScan(steps: seq<Step>, index: nat, rid: Word)
    requires IsWord(rid)
    ensures multiset(Received(Run(steps), index, rid)) == Scanned(TableRun(steps), index, rid)
  {
    RunAgrees(steps);
    var reg, t := Run(steps), TableRun(steps);
    DeliveredIsScan(reg.alldev, t.alldev, rid);
    if index in reg.devs { DeliveredIsScan(reg.devs[index], t.devs[index].entries, rid); }
  }

  /** Lists that run empty held nothing but the entry taken out. */
  lemma LastEntry(d: Lists, line: Line, e: Entry)
    requires Follows(d, line) && e.r in At(d, e.slot) && Remove(d, e).entries == 0
    ensures line.entries == [e]
  {
    RemoveFollows(d, line, e);
    WithoutMembers(line.entries, e);
    assert |line.entries| == 1 && line.entries[0] == e;
  }

  /** A device's lists are freed only when no registration is left in them. */
  lemma {:induction false} FreedOnlyWhenEmpty(steps: seq<Step>, s: Step, index: nat)
    requires index in Run(steps).devs && index !in Next(Run(steps), s).devs
    ensures s.dev == Net(index, true) && index in TableRun(steps).devs
    ensures var line := TableRun(steps).devs[index];
      (s.Withdraw? && line.entries == []) || (s.Unregister? && line == Line([EntryOf(s.f)], true))
  {
    RunAgrees(steps);
    if s.Unregister? { LastEntry(Run(steps).devs[index], TableRun(steps).devs[index], EntryOf(s.f)); }
  }

  ghost predicate Sound(d: Lists) {
    && (exists table :: Indexes(d, table))
    && (d.removeOnZero ==> d.entries != 0)
  }

  ghost predicate SoundRegistry(reg: Registry) {
    && Sound(reg.alldev) && !reg.alldev.removeOnZero
    && forall i :: i in reg.devs ==> Sound(reg.devs[i])
  }

  lemma {:induction false} EveryRunIsSound(steps: seq<Step>)
    ensures SoundRegistry(Run(steps))
  {
    RunAgrees(steps);
  }

  lemma EnterThenLeave(reg: Registry, dev: Device, e: Entry)
    requires SoundRegistry(reg) && Has(reg, dev)
    ensures Leave(Enter(reg, dev, e), dev, e) == reg
  {
    var d := Of(reg, dev);
    AddThenRemove(d, e);
    assert Of(Enter(reg, dev, e), dev) == Add(d, e);
    assert With(With(reg, dev, Add(d, e)), dev, d) == reg;
  }

  /** Unregistering what was just registered gives back the registry, lists and counts. */
  lemma RegisterThenUnregister(reg: Registry, dev: Device, f: Filter, memory: bool)
    requires SoundRegistry(reg)
    ensures var (r, res) := Registered(reg, dev, f, memory);
      if res.Done? then Unregistered(r, dev, f) == reg else r == reg
  {
    if !Foreign(dev) && memory && Has(reg, dev) {
      EnterThenLeave(reg, dev, EntryOf(f));
    }
  }
}
