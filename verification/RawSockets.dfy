/** Raw CAN sockets: how their filters follow binds, option changes and departing devices. */
module RawSockets {
  import opened Words
  import opened CanFilter
  import opened CanIndex
  import opened CanRegistry

  datatype Spec = Spec(canId: Word, mask: Word)

  // ifindex 0 is "all devices".
  datatype Sock = Sock(bound: bool, ifindex: nat, filters: seq<Spec>, errMask: Word)

  /** A new socket receives everything once it is bound. */
  const NEW_SOCK := Sock(false, 0, [Spec({}, {})], {})

  // The receive callback together with the socket it is called for.
  type Owner = nat

  function FilterOf(s: Spec, owner: Owner): Filter { Filter(s.canId, s.mask, owner) }

  function ErrSpec(errMask: Word): Spec { Spec({}, errMask + {ERR_BIT}) }

  /** The filters and, if it is not zero, the error mask. */
  function AllSpecs(filters: seq<Spec>, errMask: Word): seq<Spec> {
    filters + if errMask == {} then [] else [ErrSpec(errMask)]
  }

  function Entries(specs: seq<Spec>, owner: Owner): (es: seq<Entry>)
    ensures |es| == |specs|
    ensures forall k :: 0 <= k < |es| ==> es[k] == EntryOf(FilterOf(specs[k], owner))
  {
    seq(|specs|, k requires 0 <= k < |specs| => EntryOf(FilterOf(specs[k], owner)))
  }

  function EnterAll(reg: Registry, dev: Device, es: seq<Entry>): (r: Registry)
    requires Has(reg, dev)
    ensures Has(r, dev)
  {
    if es == [] then reg else Enter(EnterAll(reg, dev, es[..|es| - 1]), dev, es[|es| - 1])
  }

  function LeaveAll(reg: Registry, dev: Device, es: seq<Entry>): Registry {
    if es == [] then reg else Leave(LeaveAll(reg, dev, es[..|es| - 1]), dev, es[|es| - 1])
  }

  /** What comes of n registrations when only the first room of them get memory. */
  function Outcome(reg: Registry, dev: Device, n: nat, room: nat): Result {
    if n == 0 then Done
    else if Foreign(dev) then NoDevice
    else if room == 0 then NoMemory
    else if !Has(reg, dev) then NoDevice
    else if room < n then NoMemory
    else Done
  }

  /** Either all the filters are registered or none is. */
  function Enabled(reg: Registry, dev: Device, specs: seq<Spec>, owner: Owner, room: nat): (Registry, Result) {
    var res := Outcome(reg, dev, |specs|, room);
    (if res.Done? && specs != [] then EnterAll(reg, dev, Entries(specs, owner)) else reg, res)
  }

  function Disabled(reg: Registry, dev: Device, specs: seq<Spec>, owner: Owner): Registry {
    if Foreign(dev) then reg else LeaveAll(reg, dev, Entries(specs, owner))
  }

  // ---------- the socket calls; present are the network devices, and whether they are CAN devices ----------

  function Lookup(present: map<nat, bool>, index: nat): Device {
    if index != 0 && index in present then Net(index, present[index]) else AnyDevice
  }

  /** Take the filters off the device the socket is bound to, if that still exists. */
  function Detached(reg: Registry, present: map<nat, bool>, s: Sock, owner: Owner): Registry {
    if s.bound && (s.ifindex == 0 || s.ifindex in present)
    then Disabled(reg, Lookup(present, s.ifindex), AllSpecs(s.filters, s.errMask), owner)
    else reg
  }

  function Bind(reg: Registry, present: map<nat, bool>, s: Sock, owner: Owner, index: nat, room: nat):
    (Registry, Sock, Result)
  {
    if s.bound && index == s.ifindex then (reg, s, Done)
    else if index != 0 && (index !in present || !present[index]) then (reg, s, NoDevice)
    else
      var (r, res) := Enabled(reg, Lookup(present, index), AllSpecs(s.filters, s.errMask), owner, room);
      if !res.Done? then (r, s, res)
      else (Detached(r, present, s, owner), s.(bound := true, ifindex := index), Done)
  }

  function SetFilter(reg: Registry, present: map<nat, bool>, s: Sock, owner: Owner, specs: seq<Spec>, room: nat):
    (Registry, Sock, Result)
  {
    if !s.bound then (reg, s.(filters := specs), Done)
    else
      var dev := Lookup(present, s.ifindex);
      var (r, res) := Enabled(reg, dev, specs, owner, room);
      if !res.Done? then (r, s, res)
      else (Disabled(r, dev, s.filters, owner), s.(filters := specs), Done)
  }

  function SetErrFilter(reg: Registry, present: map<nat, bool>, s: Sock, owner: Owner, mask: Word, room: nat):
    (Registry, Sock, Result)
  {
    var errMask := mask * EffMask();
    if !s.bound then (reg, s.(errMask := errMask), Done)
    else
      var dev := Lookup(present, s.ifindex);
      var (r, res) := Enabled(reg, dev, AllSpecs([], errMask), owner, room);
      if !res.Done? then (r, s, res)
      else (Disabled(r, dev, AllSpecs([], s.errMask), owner), s.(errMask := errMask), Done)
  }

  /** A departing device takes the binding and the filters along; the error mask stays. */
  function Bereft(reg: Registry, s: Sock, owner: Owner, index: nat): (Registry, Sock) {
    if s.ifindex != index then (reg, s)
    else
      (if s.bound then Disabled(reg, Net(index, true), AllSpecs(s.filters, s.errMask), owner) else reg,
       s.(bound := false, ifindex := 0, filters := []))
  }

  // ---------- what a registry holds ----------

  function Count(d: Lists, e: Entry): nat { multiset(At(d, e.slot))[e.r] }

  // A device as the lists know it: its index, or -1 for all devices.
  function Spot(dev: Device): int { if dev.Net? then dev.index else -1 }

  function Held(reg: Registry, spot: int, e: Entry): nat {
    if spot == -1 then Count(reg.alldev, e) else if spot in reg.devs then Count(reg.devs[spot], e) else 0
  }

  lemma CountRemove(d: Lists, e: Entry, x: Entry)
    ensures Count(Remove(d, e), x) == Count(d, x) - if x == e && Count(d, x) > 0 then 1 else 0
  {
    if e.r in At(d, e.slot) {
      WithoutSplits(At(d, e.slot), e.r);
      AtPut(d, e.slot, Without(At(d, e.slot), e.r), x.slot);
    } else if x == e {
      assert e.r !in multiset(At(d, e.slot));
    }
  }

  lemma SoundAdd(d: Lists, e: Entry)
    requires Sound(d) && Placed(e)
    ensures Sound(Add(d, e))
  {
    var table :| Indexes(d, table);
    AddIndexes(d, table, e);
  }

  lemma SoundRemove(d: Lists, e: Entry)
    requires Sound(d)
    ensures var r := Remove(d, e); (exists table :: Indexes(r, table)) && (r == d || r.entries == d.entries - 1)
    ensures Remove(d, e).removeOnZero == d.removeOnZero
  {
    var table :| Indexes(d, table);
    RemoveIndexes(d, table, e);
  }

  lemma EmptyHoldsNothing(d: Lists, table: seq<Entry>, e: Entry)
    requires Indexes(d, table) && d.entries == 0
    ensures Count(d, e) == 0
  {
    assert table == [];
    assert At(d, e.slot) == Project(table, e.slot);
  }

  lemma HeldWith(reg: Registry, dev: Device, d: Lists, spot: int, x: Entry)
    ensures Held(With(reg, dev, d), spot, x) == if spot == Spot(dev) then Count(d, x) else Held(reg, spot, x)
  {
  }

  lemma SoundWith(reg: Registry, dev: Device, d: Lists)
    requires SoundRegistry(reg) && Sound(d) && (dev.AnyDevice? ==> !d.removeOnZero)
    ensures SoundRegistry(With(reg, dev, d))
  {
  }

  lemma SoundOf(reg: Registry, dev: Device)
    requires SoundRegistry(reg) && Has(reg, dev)
    ensures Sound(Of(reg, dev)) && (dev.AnyDevice? ==> !Of(reg, dev).removeOnZero)
  {
  }

  lemma EnterHolds(reg: Registry, dev: Device, e: Entry, spot: int, x: Entry)
    requires Has(reg, dev)
    ensures Held(Enter(reg, dev, e), spot, x) == Held(reg, spot, x) + if spot == Spot(dev) && x == e then 1 else 0
  {
    var d := Of(reg, dev);
    HeldWith(reg, dev, Add(d, e), spot, x);
  }

  lemma EnterSound(reg: Registry, dev: Device, e: Entry)
    requires SoundRegistry(reg) && Has(reg, dev) && Placed(e)
    ensures SoundRegistry(Enter(reg, dev, e))
  {
    var d := Of(reg, dev);
    SoundOf(reg, dev);
    SoundAdd(d, e);
    SoundWith(reg, dev, Add(d, e));
  }

  /** Whether taking e out frees the lists. */
  predicate Frees(reg: Registry, dev: Device, e: Entry)
    requires Has(reg, dev)
  {
    var d := Remove(Of(reg, dev), e);
    e.r in At(Of(reg, dev), e.slot) && d.removeOnZero && d.entries == 0 && dev.Net?
  }

  /** Lists that are freed held nothing more. */
  lemma FreedHolds(reg: Registry, dev: Device, e: Entry, x: Entry)
    requires SoundRegistry(reg) && Has(reg, dev) && Frees(reg, dev, e)
    ensures Count(Remove(Of(reg, dev), e), x) == 0
  {
    SoundOf(reg, dev);
    SoundRemove(Of(reg, dev), e);
    var d := Remove(Of(reg, dev), e);
    var table :| Indexes(d, table);
    EmptyHoldsNothing(d, table, x);
  }

  lemma LeaveCases(reg: Registry, dev: Device, e: Entry, spot: int, x: Entry)
    requires SoundRegistry(reg) && Has(reg, dev)
    ensures Held(Leave(reg, dev, e), spot, x) ==
      if spot == Spot(dev) then Count(Remove(Of(reg, dev), e), x) else Held(reg, spot, x)
  {
    if Frees(reg, dev, e) { FreedHolds(reg, dev, e, x); } else { HeldWith(reg, dev, Remove(Of(reg, dev), e), spot, x); }
  }

  lemma {:induction false} LeaveHolds(reg: Registry, dev: Device, e: Entry, spot: int, x: Entry)
    requires SoundRegistry(reg)
    ensures Held(Leave(reg, dev, e), spot, x) ==
      Held(reg, spot, x) - if spot == Spot(dev) && x == e && Held(reg, spot, x) > 0 then 1 else 0
  {
    if Has(reg, dev) {
      CountRemove(Of(reg, dev), e, x);
      LeaveCases(reg, dev, e, spot, x);
    }
  }

  lemma LeaveSound(reg: Registry, dev: Device, e: Entry)
    requires SoundRegistry(reg)
    ensures SoundRegistry(Leave(reg, dev, e))
  {
    if Has(reg, dev) && !Frees(reg, dev, e) {
      SoundOf(reg, dev);
      SoundRemove(Of(reg, dev), e);
      SoundWith(reg, dev, Remove(Of(reg, dev), e));
    }
  }
}
