/** All raw sockets, the registry and the network devices together, over whole runs. */
module RawSystem {
  import opened Words
  import opened CanFilter
  import opened CanIndex
  import opened CanRegistry
  import opened RawSockets
  import opened RawSocketRuns

  // present: the network devices and whether they are CAN devices; chain: the sockets in the
  // order their notifiers are called.
  datatype Sys = Sys(reg: Registry, present: map<nat, bool>, chain: seq<Owner>, socks: map<Owner, Sock>)

  // Other is a registration or unregistration by another user of the CAN core.
  datatype Event =
    | Open(owner: Owner)
    | Rebind(owner: Owner, index: nat, room: nat)
    | Filters(owner: Owner, specs: seq<Spec>, room: nat)
    | ErrFilter(owner: Owner, mask: Word, room: nat)
    | Close(owner: Owner)
    | Arrives(index: nat, isCan: bool, memory: bool)
    | Departs(index: nat)
    | Other(add: bool, dev: Device, f: Filter, memory: bool)

  function Notified(sys: Sys, owner: Owner, index: nat): (r: Sys)
    ensures r.chain == sys.chain && r.present == sys.present
  {
    if owner !in sys.socks then sys
    else
      var (r, s) := Bereft(sys.reg, sys.socks[owner], owner, index);
      sys.(reg := r, socks := sys.socks[owner := s])
  }

  /** The notifiers of the sockets from the n-th on. */
  function NotifyFrom(sys: Sys, n: nat, index: nat): (r: Sys)
    requires n <= |sys.chain|
    ensures r.chain == sys.chain && r.present == sys.present
    decreases |sys.chain| - n
  {
    if n == |sys.chain| then sys else NotifyFrom(Notified(sys, sys.chain[n], index), n + 1, index)
  }

  /** NETDEV_UNREGISTER: the CAN core first, then every socket. */
  function Departed(sys: Sys, index: nat): Sys {
    if index !in sys.present then sys
    else
      var left := sys.(present := sys.present - {index});
      if !sys.present[index] then left
      else
        var told := left.(reg := Withdrawn(sys.reg, Net(index, true)));
        NotifyFrom(told, 0, index)
  }

  /** Raw sockets are the owners in raws; nobody else registers in their name. */
  function Next(sys: Sys, ev: Event, raws: set<Owner>): Sys {
    match ev
    case Open(o) =>
      if o !in raws || o in sys.socks then sys
      else sys.(chain := sys.chain + [o], socks := sys.socks[o := NEW_SOCK])
    case Rebind(o, index, room) =>
      if o !in sys.socks then sys
      else
        var (r, s, _) := Bind(sys.reg, sys.present, sys.socks[o], o, index, room);
        sys.(reg := r, socks := sys.socks[o := s])
    case Filters(o, specs, room) =>
      if o !in sys.socks then sys
      else
        var (r, s, _) := SetFilter(sys.reg, sys.present, sys.socks[o], o, specs, room);
        sys.(reg := r, socks := sys.socks[o := s])
    case ErrFilter(o, mask, room) =>
      if o !in sys.socks then sys
      else
        var (r, s, _) := SetErrFilter(sys.reg, sys.present, sys.socks[o], o, mask, room);
        sys.(reg := r, socks := sys.socks[o := s])
    case Close(o) =>
      if o !in sys.socks then sys
      else
        Sys(Detached(sys.reg, sys.present, sys.socks[o], o), sys.present,
            if o in sys.chain then Without(sys.chain, o) else sys.chain, sys.socks - {o})
    case Arrives(index, isCan, memory) =>
      // The index stands for the device: it is not given again while the lists of a departed one remain.
      if index == 0 || index in sys.present || index in sys.reg.devs then sys
      else
        sys.(present := sys.present[index := isCan], reg := Announced(sys.reg, Net(index, isCan), memory))
    case Departs(index) => Departed(sys, index)
    case Other(add, dev, f, memory) =>
      if f.data in raws then sys
      else if add then sys.(reg := Registered(sys.reg, dev, f, memory).0)
      else sys.(reg := Unregistered(sys.reg, dev, f))
  }

  function Run(events: seq<Event>, raws: set<Owner>): Sys {
    if events == [] then Sys(Registry(NO_RECEIVERS, map[]), map[], [], map[])
    else Next(Run(events[..|events| - 1], raws), events[|events| - 1], raws)
  }

  /** The state a raw owner's entries are compared with: its socket's, or none. */
  function StateOf(sys: Sys, o: Owner): Sock { if o in sys.socks then sys.socks[o] else NEW_SOCK }

  ghost predicate Accounted(sys: Sys, raws: set<Owner>) {
    forall o :: o in raws ==> Keeps(sys.reg, o, StateOf(sys, o))
  }

  ghost predicate Inv(sys: Sys, raws: set<Owner>) {
    && SoundRegistry(sys.reg)
    && Accounted(sys, raws)
    && sys.socks.Keys <= raws
    && (forall o :: o in sys.socks ==> o in sys.chain && Attached(sys.socks[o], sys.present))
    && 0 !in sys.present
  }

  /** One owner's call accounts for everybody if every entry is settled. */
  lemma CallAccounts(sys: Sys, after: Sys, raws: set<Owner>, o: Owner)
    requires Accounted(sys, raws)
    requires forall p :: p != o ==> StateOf(after, p) == StateOf(sys, p)
    requires forall spot, x :: Settled(sys.reg, after.reg, o, StateOf(after, o), spot, x)
    ensures Accounted(after, raws)
  {
    forall p | p in raws ensures Keeps(after.reg, p, StateOf(after, p)) {
      forall spot, x: Entry | x.r.data == p
        ensures Held(after.reg, spot, x) == Wanted(StateOf(after, p), p, spot, x)
      {
        assert Settled(sys.reg, after.reg, o, StateOf(after, o), spot, x);
        assert Keeps(sys.reg, p, StateOf(sys, p));
      }
    }
  }

  lemma CallKeeps(sys: Sys, raws: set<Owner>, o: Owner, r: Registry, s: Sock)
    requires Inv(sys, raws) && o in sys.socks && SoundRegistry(r) && Attached(s, sys.present)
    requires forall spot, x :: Settled(sys.reg, r, o, s, spot, x)
    ensures Inv(sys.(reg := r, socks := sys.socks[o := s]), raws)
  {
    CallAccounts(sys, sys.(reg := r, socks := sys.socks[o := s]), raws, o);
  }

  const ANY_ENTRY := Entry(RxAll, Receiver({}, {}, 0))

  lemma RebindKeeps(sys: Sys, raws: set<Owner>, o: Owner, index: nat, room: nat)
    requires Inv(sys, raws) && o in sys.socks
    ensures Inv(Next(sys, Rebind(o, index, room), raws), raws)
  {
    var s := sys.socks[o];
    assert Keeps(sys.reg, o, StateOf(sys, o));
    var (r, s', _) := Bind(sys.reg, sys.present, s, o, index, room);
    forall spot, x ensures SoundRegistry(r) && Settled(sys.reg, r, o, s', spot, x) {
      BindSettles(sys.reg, sys.present, s, o, index, room, spot, x);
    }
    BindSettles(sys.reg, sys.present, s, o, index, room, 0, ANY_ENTRY);
    CallKeeps(sys, raws, o, r, s');
  }

  lemma FiltersKeeps(sys: Sys, raws: set<Owner>, o: Owner, specs: seq<Spec>, room: nat)
    requires Inv(sys, raws) && o in sys.socks
    ensures Inv(Next(sys, Filters(o, specs, room), raws), raws)
  {
    var s := sys.socks[o];
    assert Keeps(sys.reg, o, StateOf(sys, o));
    var (r, s', _) := SetFilter(sys.reg, sys.present, s, o, specs, room);
    forall spot, x ensures Settled(sys.reg, r, o, s', spot, x) {
      SetFilterSettles(sys.reg, sys.present, s, o, specs, room, spot, x);
    }
    SetFilterSettles(sys.reg, sys.present, s, o, specs, room, 0, ANY_ENTRY);
    CallKeeps(sys, raws, o, r, s');
  }

  lemma ErrFilterKeeps(sys: Sys, raws: set<Owner>, o: Owner, mask: Word, room: nat)
    requires Inv(sys, raws) && o in sys.socks
    ensures Inv(Next(sys, ErrFilter(o, mask, room), raws), raws)
  {
    var s := sys.socks[o];
    assert Keeps(sys.reg, o, StateOf(sys, o));
    var (r, s', _) := SetErrFilter(sys.reg, sys.present, s, o, mask, room);
    forall spot, x ensures Settled(sys.reg, r, o, s', spot, x) {
      SetErrFilterSettles(sys.reg, sys.present, s, o, mask, room, spot, x);
    }
    SetErrFilterSettles(sys.reg, sys.present, s, o, mask, room, 0, ANY_ENTRY);
    CallKeeps(sys, raws, o, r, s');
  }

  lemma {:induction false} OthersStay<T>(s: seq<T>, x: T, y: T)
    requires y in s && y != x
    ensures y in Without(s, x)
  {
    assert s == [s[0]] + s[1..];
    WithoutCons(s[0], s[1..], x);
    if s[0] != x && s[0] != y { OthersStay(s[1..], x, y); }
  }

  lemma CloseAccounts(sys: Sys, raws: set<Owner>, o: Owner)
    requires Inv(sys, raws) && o in sys.socks
    ensures var after := Next(sys, Close(o), raws); SoundRegistry(after.reg) && Accounted(after, raws)
  {
    var s, after := sys.socks[o], Next(sys, Close(o), raws);
    assert Keeps(sys.reg, o, StateOf(sys, o));
    forall spot, x ensures Settled(sys.reg, after.reg, o, NEW_SOCK, spot, x) {
      ReleaseSettles(sys.reg, sys.present, s, o, spot, x);
    }
    ReleaseSettles(sys.reg, sys.present, s, o, 0, ANY_ENTRY);
    CallAccounts(sys, after, raws, o);
  }

  lemma CloseKeeps(sys: Sys, raws: set<Owner>, o: Owner)
    requires Inv(sys, raws) && o in sys.socks
    ensures Inv(Next(sys, Close(o), raws), raws)
  {
    CloseAccounts(sys, raws, o);
    forall p | p in sys.socks && p != o ensures p in Without(sys.chain, o) { OthersStay(sys.chain, o, p); }
  }

  /** Registries that hold the same entries for the raw owners account for them alike. */
  lemma SameHoldings(sys: Sys, after: Sys, raws: set<Owner>)
    requires Accounted(sys, raws) && forall o :: o in raws ==> StateOf(after, o) == StateOf(sys, o)
    requires forall spot, x: Entry :: x.r.data in raws ==> Held(after.reg, spot, x) == Held(sys.reg, spot, x)
    ensures Accounted(after, raws)
  {
    forall o | o in raws ensures Keeps(after.reg, o, StateOf(after, o)) {
      assert Keeps(sys.reg, o, StateOf(sys, o));
    }
  }

  lemma OpenKeeps(sys: Sys, raws: set<Owner>, o: Owner)
    requires Inv(sys, raws)
    ensures Inv(Next(sys, Open(o), raws), raws)
  {
    SameHoldings(sys, Next(sys, Open(o), raws), raws);
  }

  lemma AnnouncedHolds(reg: Registry, dev: Device, memory: bool)
    requires SoundRegistry(reg)
    ensures SoundRegistry(Announced(reg, dev, memory))
    ensures forall spot, x :: Held(Announced(reg, dev, memory), spot, x) == Held(reg, spot, x)
  {
    assert Indexes(NO_RECEIVERS, []);
  }

  lemma WithdrawnHolds(reg: Registry, dev: Device)
    requires SoundRegistry(reg)
    ensures SoundRegistry(Withdrawn(reg, dev))
    ensures forall spot, x :: Held(Withdrawn(reg, dev), spot, x) == Held(reg, spot, x)
  {
    if dev.Net? && dev.isCan && dev.index in reg.devs {
      var d := reg.devs[dev.index];
      var table :| Indexes(d, table);
      if d.entries == 0 {
        forall x ensures Count(d, x) == 0 { EmptyHoldsNothing(d, table, x); }
      } else {
        assert Indexes(d.(removeOnZero := true), table) by {
          forall slot ensures At(d.(removeOnZero := true), slot) == Project(table, slot) {
            assert At(d, slot) == Project(table, slot);
          }
        }
        WithHolds(reg, dev, d.(removeOnZero := true));
      }
    }
  }

  lemma WithHolds(reg: Registry, dev: Device, d: Lists)
    requires SoundRegistry(reg) && Has(reg, dev) && dev.Net? && Sound(d) && d.rx == Of(reg, dev).rx
    ensures SoundRegistry(With(reg, dev, d))
    ensures forall spot, x :: Held(With(reg, dev, d), spot, x) == Held(reg, spot, x)
  {
    SoundWith(reg, dev, d);
    forall spot, x ensures Held(With(reg, dev, d), spot, x) == Held(reg, spot, x) {
      HeldWith(reg, dev, d, spot, x);
      assert At(d, x.slot) == At(Of(reg, dev), x.slot);
    }
  }

  lemma ArrivesKeeps(sys: Sys, raws: set<Owner>, index: nat, isCan: bool, memory: bool)
    requires Inv(sys, raws)
    ensures Inv(Next(sys, Arrives(index, isCan, memory), raws), raws)
  {
    AnnouncedHolds(sys.reg, Net(index, isCan), memory);
    SameHoldings(sys, Next(sys, Arrives(index, isCan, memory), raws), raws);
  }

  lemma OtherKeeps(sys: Sys, raws: set<Owner>, add: bool, dev: Device, f: Filter, memory: bool)
    requires Inv(sys, raws)
    ensures Inv(Next(sys, Other(add, dev, f, memory), raws), raws)
  {
    var after := Next(sys, Other(add, dev, f, memory), raws);
    if f.data !in raws && !Foreign(dev) && (add ==> memory && Has(sys.reg, dev)) {
      var e := EntryOf(f);
      forall spot, x: Entry | x.r.data in raws ensures Held(after.reg, spot, x) == Held(sys.reg, spot, x) {
        if add { EnterHolds(sys.reg, dev, e, spot, x); } else { LeaveHolds(sys.reg, dev, e, spot, x); }
      }
      if add { EnterSound(sys.reg, dev, e); } else { LeaveSound(sys.reg, dev, e); }
    }
    SameHoldings(sys, after, raws);
  }

  // ---------- a departing device ----------

  /** In the middle of the notifications: the first n sockets have let go of the device. */
  ghost predicate Leaving(sys: Sys, raws: set<Owner>, index: nat, n: nat) {
    && SoundRegistry(sys.reg)
    && Accounted(sys, raws)
    && sys.socks.Keys <= raws
    && (forall o :: o in sys.socks ==> o in sys.chain && (sys.socks[o].ifindex == index || Attached(sys.socks[o], sys.present)))
    && index != 0 && 0 !in sys.present && index !in sys.present
    && n <= |sys.chain|
    && forall k :: 0 <= k < n && sys.chain[k] in sys.socks ==> sys.socks[sys.chain[k]].ifindex != index
  }

  lemma NotifiedKeeps(sys: Sys, raws: set<Owner>, index: nat, n: nat)
    requires Leaving(sys, raws, index, n) && n < |sys.chain|
    ensures Leaving(Notified(sys, sys.chain[n], index), raws, index, n + 1)
  {
    var o := sys.chain[n];
    if o in sys.socks {
      var s, after := sys.socks[o], Notified(sys, o, index);
      assert Keeps(sys.reg, o, StateOf(sys, o));
      forall spot, x ensures Settled(sys.reg, after.reg, o, after.socks[o], spot, x) {
        BereftSettles(sys.reg, s, o, index, spot, x);
      }
      BereftSettles(sys.reg, s, o, index, 0, ANY_ENTRY);
      CallAccounts(sys, after, raws, o);
    }
  }

  lemma {:induction false} NotifyFromKeeps(sys: Sys, raws: set<Owner>, index: nat, n: nat)
    requires n <= |sys.chain| && Leaving(sys, raws, index, n)
    ensures Leaving(NotifyFrom(sys, n, index), raws, index, |sys.chain|)
    decreases |sys.chain| - n
  {
    if n < |sys.chain| {
      NotifiedKeeps(sys, raws, index, n);
      NotifyFromKeeps(Notified(sys, sys.chain[n], index), raws, index, n + 1);
    }
  }

  lemma ToldIsLeaving(sys: Sys, raws: set<Owner>, index: nat)
    requires Inv(sys, raws) && index in sys.present
    ensures var told := Sys(Withdrawn(sys.reg, Net(index, true)), sys.present - {index}, sys.chain, sys.socks);
      Leaving(told, raws, index, 0)
  {
    WithdrawnHolds(sys.reg, Net(index, true));
    SameHoldings(sys, Sys(Withdrawn(sys.reg, Net(index, true)), sys.present - {index}, sys.chain, sys.socks), raws);
  }

  lemma CanDepartsKeeps(sys: Sys, raws: set<Owner>, index: nat)
    requires Inv(sys, raws) && index in sys.present && sys.present[index]
    ensures Inv(Departed(sys, index), raws)
  {
    var told := Sys(Withdrawn(sys.reg, Net(index, true)), sys.present - {index}, sys.chain, sys.socks);
    ToldIsLeaving(sys, raws, index);
    NotifyFromKeeps(told, raws, index, 0);
    assert Departed(sys, index) == NotifyFrom(told, 0, index);
  }

  lemma DepartsKeeps(sys: Sys, raws: set<Owner>, index: nat)
    requires Inv(sys, raws)
    ensures Inv(Departed(sys, index), raws)
  {
    if index in sys.present {
      if sys.present[index] {
        CanDepartsKeeps(sys, raws, index);
      } else {
        SameHoldings(sys, sys.(present := sys.present - {index}), raws);
      }
    }
  }

  lemma NextKeeps(sys: Sys, ev: Event, raws: set<Owner>)
    requires Inv(sys, raws)
    ensures Inv(Next(sys, ev, raws), raws)
  {
    match ev
    case Open(o) => OpenKeeps(sys, raws, o);
    case Rebind(o, index, room) => if o in sys.socks { RebindKeeps(sys, raws, o, index, room); }
    case Filters(o, specs, room) => if o in sys.socks { FiltersKeeps(sys, raws, o, specs, room); }
    case ErrFilter(o, mask, room) => if o in sys.socks { ErrFilterKeeps(sys, raws, o, mask, room); }
    case Close(o) => if o in sys.socks { CloseKeeps(sys, raws, o); }
    case Arrives(index, isCan, memory) => ArrivesKeeps(sys, raws, index, isCan, memory);
    case Departs(index) => DepartsKeeps(sys, raws, index);
    case Other(add, dev, f, memory) => OtherKeeps(sys, raws, add, dev, f, memory);
  }

  /**
   In every run the registry holds, for each raw socket, exactly its filters and its error
   mask on the device it is bound to, and nothing for an unbound or closed socket.
   */
  lemma {:induction false} SocketsAndRegistryAgree(events: seq<Event>, raws: set<Owner>)
    ensures Inv(Run(events, raws), raws)
    decreases |events|
  {
    if events == [] {
      assert Indexes(NO_RECEIVERS, []);
    } else {
      SocketsAndRegistryAgree(events[..|events| - 1], raws);
      NextKeeps(Run(events[..|events| - 1], raws), events[|events| - 1], raws);
    }
  }
}
