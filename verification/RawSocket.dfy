/** A raw socket as it runs: its fields, and the loops that register and roll back its filters. */
module RawSocket {
  import opened Words
  import opened CanFilter
  import opened CanIndex
  import opened CanRegistry
  import opened CanCore
  import opened RawSockets
  import opened RawSocketRuns

  ghost predicate Ready(core: Core)
    reads core.Repr()
  {
    core.Valid() && SoundRegistry(core.View())
  }

  /** The registry after the first i registrations. */
  ghost function After(reg: Registry, dev: Device, specs: seq<Spec>, owner: Owner, i: nat): Registry
    requires i <= |specs| && (i > 0 ==> Has(reg, dev))
  {
    if i == 0 then reg else EnterAll(reg, dev, Entries(specs[..i], owner))
  }

  lemma AfterNext(reg: Registry, dev: Device, specs: seq<Spec>, owner: Owner, i: nat)
    requires i < |specs| && SoundRegistry(reg) && Has(reg, dev)
    ensures var r, e := After(reg, dev, specs, owner, i), EntryOf(FilterOf(specs[i], owner));
      && SoundRegistry(r) && Has(r, dev)
      && After(reg, dev, specs, owner, i + 1) == Enter(r, dev, e)
      && Leave(Enter(r, dev, e), dev, e) == r
  {
    var es := Entries(specs[..i + 1], owner);
    assert es[..i] == Entries(specs[..i], owner);
    EntriesOwned(specs[..i], owner);
    EnterAllSound(reg, dev, es[..i]);
    EnterThenLeave(After(reg, dev, specs, owner, i), dev, es[i]);
  }

  lemma OneLess(reg: Registry, dev: Device, specs: seq<Spec>, owner: Owner, i: nat)
    requires i < |specs| && SoundRegistry(reg) && Has(reg, dev) && !Foreign(dev)
    ensures Unregistered(After(reg, dev, specs, owner, i + 1), dev, FilterOf(specs[i], owner)) ==
      After(reg, dev, specs, owner, i)
  {
    AfterNext(reg, dev, specs, owner, i);
  }

  /** Take the first n registrations out again, last first. */
  method RollBack(core: Core, dev: Device, owner: Owner, specs: seq<Spec>, n: nat, ghost reg: Registry)
    requires core.Valid() && n <= |specs| && SoundRegistry(reg)
    requires n > 0 ==> Has(reg, dev) && !Foreign(dev)
    requires core.View() == After(reg, dev, specs, owner, n)
    modifies core.Repr()
    ensures core.Valid() && core.Repr() <= old(core.Repr())
    ensures core.View() == reg
  {
    var i := n;
    while i > 0
      invariant 0 <= i <= n
      invariant core.Valid() && core.Repr() <= old(core.Repr())
      invariant core.View() == After(reg, dev, specs, owner, i)
    {
      i := i - 1;
      OneLess(reg, dev, specs, owner, i);
      core.RxUnregister(dev, FilterOf(specs[i], owner));
    }
  }

  /** One more registration: either it succeeds, or its error is what the whole call returns. */
  lemma OneMore(reg: Registry, dev: Device, specs: seq<Spec>, owner: Owner, room: nat, i: nat)
    requires i < |specs| && SoundRegistry(reg) && (i > 0 ==> Has(reg, dev) && !Foreign(dev) && i <= room)
    ensures var (r, res) := Registered(After(reg, dev, specs, owner, i), dev, FilterOf(specs[i], owner), i < room);
      if res.Done?
      then Has(reg, dev) && !Foreign(dev) && i + 1 <= room && r == After(reg, dev, specs, owner, i + 1)
      else r == After(reg, dev, specs, owner, i) && Enabled(reg, dev, specs, owner, room) == (reg, res)
  {
    if Has(reg, dev) { AfterNext(reg, dev, specs, owner, i); }
  }

  lemma AllDone(reg: Registry, dev: Device, specs: seq<Spec>, owner: Owner, room: nat)
    requires specs != [] ==> Has(reg, dev) && !Foreign(dev) && |specs| <= room
    ensures Enabled(reg, dev, specs, owner, room) == (After(reg, dev, specs, owner, |specs|), Done)
  {
    assert specs[..|specs|] == specs;
  }

  /** One turn of the registration loop; when it fails, the earlier ones are taken out again. */
  method EnableOne(core: Core, dev: Device, owner: Owner, specs: seq<Spec>, room: nat, i: nat, ghost reg: Registry)
    returns (res: Result)
    requires core.Valid() && SoundRegistry(reg) && i < |specs|
    requires i > 0 ==> Has(reg, dev) && !Foreign(dev) && i <= room
    requires core.View() == After(reg, dev, specs, owner, i)
    modifies core.Repr()
    ensures core.Valid() && core.Repr() <= old(core.Repr())
    ensures if res.Done?
      then Has(reg, dev) && !Foreign(dev) && i + 1 <= room && core.View() == After(reg, dev, specs, owner, i + 1)
      else core.View() == reg && Enabled(reg, dev, specs, owner, room) == (reg, res)
  {
    OneMore(reg, dev, specs, owner, room, i);
    res := core.RxRegister(dev, FilterOf(specs[i], owner), i < room);
    if !res.Done? { RollBack(core, dev, owner, specs, i, reg); }
  }

  /** raw_enable_filters: register one by one; all of them, or none. */
  method EnableFilters(core: Core, dev: Device, owner: Owner, specs: seq<Spec>, room: nat) returns (res: Result)
    requires Ready(core)
    modifies core.Repr()
    ensures core.Valid() && core.Repr() <= old(core.Repr())
    ensures (core.View(), res) == Enabled(old(core.View()), dev, specs, owner, room)
  {
    ghost var reg := core.View();
    res := Done;
    var i := 0;
    while i < |specs|
      invariant 0 <= i <= |specs| && res.Done?
      invariant i > 0 ==> Has(reg, dev) && !Foreign(dev) && i <= room
      invariant core.Valid() && core.Repr() <= old(core.Repr())
      invariant core.View() == After(reg, dev, specs, owner, i)
    {
      res := EnableOne(core, dev, owner, specs, room, i, reg);
      if !res.Done? { return; }
      i := i + 1;
    }
    AllDone(reg, dev, specs, owner, room);
  }

  method DisableFilters(core: Core, dev: Device, owner: Owner, specs: seq<Spec>)
    requires core.Valid()
    modifies core.Repr()
    ensures core.Valid() && core.Repr() <= old(core.Repr())
    ensures core.View() == Disabled(old(core.View()), dev, specs, owner)
  {
    ghost var reg := core.View();
    ghost var es := Entries(specs, owner);
    for i := 0 to |specs|
      invariant core.Valid() && core.Repr() <= old(core.Repr())
      invariant core.View() == if Foreign(dev) then reg else LeaveAll(reg, dev, es[..i])
    {
      assert es[..i + 1][..i] == es[..i];
      core.RxUnregister(dev, FilterOf(specs[i], owner));
    }
    assert es[..|specs|] == es;
  }

  method EnableErrFilter(core: Core, dev: Device, owner: Owner, errMask: Word, room: nat) returns (res: Result)
    requires Ready(core)
    modifies core.Repr()
    ensures core.Valid() && core.Repr() <= old(core.Repr())
    ensures (core.View(), res) == Enabled(old(core.View()), dev, AllSpecs([], errMask), owner, room)
  {
    res := Done;
    if errMask != {} {
      assert AllSpecs([], errMask) == [ErrSpec(errMask)];
      res := EnableFilters(core, dev, owner, [ErrSpec(errMask)], room);
    }
  }

  method DisableErrFilter(core: Core, dev: Device, owner: Owner, errMask: Word)
    requires core.Valid()
    modifies core.Repr()
    ensures core.Valid() && core.Repr() <= old(core.Repr())
    ensures core.View() == Disabled(old(core.View()), dev, AllSpecs([], errMask), owner)
  {
    if errMask != {} {
      assert AllSpecs([], errMask) == [ErrSpec(errMask)];
      DisableFilters(core, dev, owner, [ErrSpec(errMask)]);
    }
  }

  lemma SplitEntries(filters: seq<Spec>, errMask: Word, owner: Owner)
    ensures Entries(AllSpecs(filters, errMask), owner) ==
      Entries(filters, owner) + Entries(AllSpecs([], errMask), owner)
    ensures errMask != {} ==> |AllSpecs([], errMask)| == 1
  {
  }

  lemma LeaveInTwo(reg: Registry, dev: Device, filters: seq<Spec>, errMask: Word, owner: Owner)
    ensures Disabled(reg, dev, AllSpecs(filters, errMask), owner) ==
      Disabled(Disabled(reg, dev, filters, owner), dev, AllSpecs([], errMask), owner)
  {
    SplitEntries(filters, errMask, owner);
    var es, last := Entries(filters, owner), Entries(AllSpecs([], errMask), owner);
    if errMask == {} {
      assert es + last == es;
    } else {
      var all := es + last;
      assert |last| == 1 && |all| - 1 == |es| && all[..|es|] == es && all[|es|] == last[0];
      assert last[..0] == [];
      var r := LeaveAll(reg, dev, es);
      assert LeaveAll(reg, dev, all) == Leave(r, dev, last[0]);
      assert LeaveAll(r, dev, last) == Leave(LeaveAll(r, dev, last[..0]), dev, last[0]);
    }
  }

  lemma {:induction false} EnterInTwo(reg: Registry, dev: Device, filters: seq<Spec>, errMask: Word, owner: Owner)
    requires Has(reg, dev)
    ensures EnterAll(reg, dev, Entries(AllSpecs(filters, errMask), owner)) ==
      EnterAll(EnterAll(reg, dev, Entries(filters, owner)), dev, Entries(AllSpecs([], errMask), owner))
  {
    SplitEntries(filters, errMask, owner);
    var es, last := Entries(filters, owner), Entries(AllSpecs([], errMask), owner);
    if errMask == {} {
      assert es + last == es;
    } else {
      assert (es + last)[..|es|] == es && (es + last)[|es|] == last[0];
      assert last[..0] == [];
    }
  }

  /** The memory left after the filters. */
  function Rest(filters: seq<Spec>, room: nat): nat {
    if |filters| <= room then room - |filters| else 0
  }

  /** Enabling the filters and then the error mask, with the filters taken out again if that fails. */
  function EnabledInTwo(reg: Registry, dev: Device, filters: seq<Spec>, errMask: Word, owner: Owner, room: nat):
    (Registry, Result)
  {
    var (r, res) := Enabled(reg, dev, filters, owner, room);
    if !res.Done? then (r, res)
    else
      var (r', res') := Enabled(r, dev, AllSpecs([], errMask), owner, Rest(filters, room));
      (if res'.Done? then r' else Disabled(r', dev, filters, owner), res')
  }

  lemma OutcomeInTwo(reg: Registry, r: Registry, dev: Device, n: nat, k: nat, room: nat)
    requires Has(r, dev) == Has(reg, dev)
    ensures Outcome(reg, dev, n + k, room) ==
      if !Outcome(reg, dev, n, room).Done? then Outcome(reg, dev, n, room)
      else Outcome(r, dev, k, if n <= room then room - n else 0)
  {
  }

  lemma EnableInTwo(reg: Registry, dev: Device, filters: seq<Spec>, errMask: Word, owner: Owner, room: nat)
    requires SoundRegistry(reg)
    ensures SoundRegistry(Enabled(reg, dev, filters, owner, room).0)
    ensures EnabledInTwo(reg, dev, filters, errMask, owner, room) ==
      Enabled(reg, dev, AllSpecs(filters, errMask), owner, room)
  {
    var (r, res) := Enabled(reg, dev, filters, owner, room);
    OutcomeInTwo(reg, r, dev, |filters|, |AllSpecs([], errMask)|, room);
    if filters == [] {
      assert AllSpecs(filters, errMask) == AllSpecs([], errMask) && Disabled(reg, dev, [], owner) == reg;
    } else if res.Done? {
      EntriesOwned(filters, owner);
      EnterAllSound(reg, dev, Entries(filters, owner));
      EnterInTwo(reg, dev, filters, errMask, owner);
      UndoAll(reg, dev, Entries(filters, owner));
    }
  }

  class RawSock {
    const owner: Owner
    var bound: bool
    var ifindex: nat
    var filters: seq<Spec>
    var errMask: Word

    function View(): Sock
      reads this
    {
      Sock(bound, ifindex, filters, errMask)
    }

    constructor (id: Owner)
      ensures View() == NEW_SOCK && owner == id
    {
      owner := id;
      bound, ifindex, filters, errMask := false, 0, [Spec({}, {})], {};
    }

    method EnableAll(core: Core, dev: Device, room: nat) returns (res: Result)
      requires Ready(core) && this !in core.Repr()
      modifies core.Repr()
      ensures core.Valid() && core.Repr() <= old(core.Repr())
      ensures (core.View(), res) == Enabled(old(core.View()), dev, AllSpecs(filters, errMask), owner, room)
    {
      ghost var reg := core.View();
      EnableInTwo(reg, dev, filters, errMask, owner, room);
      res := EnableFilters(core, dev, owner, filters, room);
      if !res.Done? { return; }
      res := EnableErrFilter(core, dev, owner, errMask, Rest(filters, room));
      if !res.Done? { DisableFilters(core, dev, owner, filters); }
    }

    method DisableAll(core: Core, dev: Device)
      requires core.Valid() && this !in core.Repr()
      modifies core.Repr()
      ensures core.Valid() && core.Repr() <= old(core.Repr())
      ensures core.View() == Disabled(old(core.View()), dev, AllSpecs(filters, errMask), owner)
    {
      LeaveInTwo(core.View(), dev, filters, errMask, owner);
      DisableFilters(core, dev, owner, filters);
      DisableErrFilter(core, dev, owner, errMask);
    }

    /** Take the filters off the device the socket is bound to. */
    method Detach(core: Core, present: map<nat, bool>)
      requires core.Valid() && this !in core.Repr()
      modifies core.Repr()
      ensures core.Valid() && core.Repr() <= old(core.Repr())
      ensures core.View() == Detached(old(core.View()), present, View(), owner)
    {
      if bound {
        if ifindex != 0 {
          if ifindex in present { DisableAll(core, Net(ifindex, present[ifindex])); }
        } else {
          DisableAll(core, AnyDevice);
        }
      }
    }

    method Bind(core: Core, present: map<nat, bool>, index: nat, room: nat) returns (res: Result)
      requires Ready(core) && this !in core.Repr()
      modifies this, core.Repr()
      ensures core.Valid() && core.Repr() <= old(core.Repr())
      ensures (core.View(), View(), res) == RawSockets.Bind(old(core.View()), present, old(View()), owner, index, room)
    {
      if bound && index == ifindex { return Done; }
      if index != 0 {
        if index !in present || !present[index] { return NoDevice; }
        res := Move(core, present, Net(index, present[index]), index, room);
      } else {
        res := Move(core, present, AnyDevice, index, room);
      }
    }

    /** Register on the new device; if that succeeds, let go of the old one. */
    method Move(core: Core, present: map<nat, bool>, dev: Device, index: nat, room: nat) returns (res: Result)
      requires Ready(core) && this !in core.Repr()
      modifies this`bound, this`ifindex, core.Repr()
      ensures core.Valid() && core.Repr() <= old(core.Repr())
      ensures var (r, outcome) := Enabled(old(core.View()), dev, AllSpecs(filters, errMask), owner, room);
        res == outcome &&
        if !outcome.Done? then core.View() == r && View() == old(View())
        else core.View() == Detached(r, present, old(View()), owner) && View() == old(View()).(bound := true, ifindex := index)
    {
      res := EnableAll(core, dev, room);
      if res.Done? {
        Detach(core, present);
        BindTo(index, core);
      }
    }

    method SetFilter(core: Core, present: map<nat, bool>, specs: seq<Spec>, room: nat) returns (res: Result)
      requires Ready(core) && this !in core.Repr()
      modifies this, core.Repr()
      ensures core.Valid() && core.Repr() <= old(core.Repr())
      ensures (core.View(), View(), res) == RawSockets.SetFilter(old(core.View()), present, old(View()), owner, specs, room)
    {
      res := Done;
      if bound {
        var dev := Lookup(present, ifindex);
        res := EnableFilters(core, dev, owner, specs, room);
        if !res.Done? { return; }
        DisableFilters(core, dev, owner, filters);
      }
      ghost var reg := core.View();
      filters := specs;
      assert core.View() == reg;
    }

    method SetErrFilter(core: Core, present: map<nat, bool>, mask: Word, room: nat) returns (res: Result)
      requires Ready(core) && this !in core.Repr()
      modifies this, core.Repr()
      ensures core.Valid() && core.Repr() <= old(core.Repr())
      ensures (core.View(), View(), res) == RawSockets.SetErrFilter(old(core.View()), present, old(View()), owner, mask, room)
    {
      res := Done;
      var reduced := mask * EffMask();
      if bound {
        var dev := Lookup(present, ifindex);
        res := EnableErrFilter(core, dev, owner, reduced, room);
        if !res.Done? { return; }
        DisableErrFilter(core, dev, owner, errMask);
      }
      ghost var reg := core.View();
      errMask := reduced;
      assert core.View() == reg;
    }

    /** The socket's own fields are no part of the core. */
    method BindTo(index: nat, ghost core: Core)
      requires core.Valid() && this !in core.Repr()
      modifies this`bound, this`ifindex
      ensures core.Valid() && core.Repr() == old(core.Repr()) && core.View() == old(core.View())
      ensures View() == old(View()).(bound := true, ifindex := index)
    {
      bound, ifindex := true, index;
    }

    method Unbind(ghost core: Core)
      requires core.Valid() && this !in core.Repr()
      modifies this
      ensures core.Valid() && core.Repr() == old(core.Repr()) && core.View() == old(core.View())
      ensures View() == old(View()).(bound := false, ifindex := 0, filters := [])
    {
      ifindex, bound, filters := 0, false, [];
    }

    /** NETDEV_UNREGISTER of a CAN device. */
    method NotifyUnregister(core: Core, index: nat)
      requires core.Valid() && this !in core.Repr()
      modifies this, core.Repr()
      ensures core.Valid() && core.Repr() <= old(core.Repr())
      ensures (core.View(), View()) == Bereft(old(core.View()), old(View()), owner, index)
    {
      if ifindex != index { return; }
      ghost var (r, s) := Bereft(core.View(), View(), owner, index);
      if bound { DisableAll(core, Net(index, true)); }
      assert core.View() == r;
      Unbind(core);
      assert View() == s;
    }

    method Release(core: Core, present: map<nat, bool>)
      requires core.Valid() && this !in core.Repr()
      modifies this, core.Repr()
      ensures core.Valid() && core.Repr() <= old(core.Repr())
      ensures core.View() == Detached(old(core.View()), present, old(View()), owner)
      ensures !bound && ifindex == 0 && filters == []
    {
      Detach(core, present);
      Unbind(core);
    }
  }
}
