/** What the socket calls do when they say that they are done, and when they say so. */
module RawCalls {
  import opened Words
  import opened CanFilter
  import opened CanIndex
  import opened CanRegistry
  import opened RawSockets
  import opened RawSocketRuns
  import opened RawSystem
  import opened RawDelivery

  /** The index stands for all devices, or for a CAN device that is there. */
  predicate Bindable(present: map<nat, bool>, index: nat) {
    index == 0 || (index in present && present[index])
  }

  /** n filters can be registered there: none need nothing, and others lists and memory. */
  predicate Fits(reg: Registry, index: nat, n: nat, room: nat) {
    n == 0 || ((index == 0 || index in reg.devs) && n <= room)
  }

  function Specs(s: Sock): seq<Spec> { AllSpecs(s.filters, s.errMask) }

  /** What bind asks of the registry and the devices, unless the socket is bound there already. */
  predicate MayBind(reg: Registry, present: map<nat, bool>, s: Sock, index: nat, room: nat) {
    (s.bound && index == s.ifindex) || (Bindable(present, index) && Fits(reg, index, |Specs(s)|, room))
  }

  /**
   A bind is done exactly if it may be, and then the socket is bound to the device asked for
   with the filters and the mask it had. Otherwise nothing has changed.
   */
  lemma BindDoneIff(reg: Registry, present: map<nat, bool>, s: Sock, owner: Owner, index: nat, room: nat)
    ensures var (r, s', res) := Bind(reg, present, s, owner, index, room);
      var there, listed := s.bound && index == s.ifindex, index == 0 || index in reg.devs;
      && (res == Done <==> MayBind(reg, present, s, index, room))
      && (res == Done ==> s'.bound && s'.ifindex == index && s'.filters == s.filters && s'.errMask == s.errMask)
      && (res != Done ==> r == reg && s' == s)
      && (there ==> r == reg)
      && (res == NoMemory <==> !there && Bindable(present, index) && room < |Specs(s)| && (room == 0 || listed))
  {
  }

  /** A filter change of a bound socket is done exactly if the new filters fit, and then they are the socket's. */
  lemma SetFilterDoneIff(reg: Registry, present: map<nat, bool>, s: Sock, owner: Owner, specs: seq<Spec>, room: nat)
    requires Attached(s, present)
    ensures var (r, s', res) := SetFilter(reg, present, s, owner, specs, room);
      && (res == Done <==> !s.bound || Fits(reg, s.ifindex, |specs|, room))
      && (if res == Done then s'.filters == specs else s'.filters == s.filters && r == reg)
      && s'.bound == s.bound && s'.ifindex == s.ifindex && s'.errMask == s.errMask
      && (!s.bound ==> r == reg)
  {
  }

  /** An error mask change likewise; of the mask given only the 29 error bits are kept. */
  lemma SetErrFilterDoneIff(reg: Registry, present: map<nat, bool>, s: Sock, owner: Owner, mask: Word, room: nat)
    requires Attached(s, present)
    ensures var (r, s', res) := SetErrFilter(reg, present, s, owner, mask, room);
      && (res == Done <==> !s.bound || (forall b :: b in mask ==> b >= 29) || Fits(reg, s.ifindex, 1, room))
      && (res == Done ==> forall b :: b in s'.errMask <==> b in mask && b < 29)
      && (res != Done ==> s'.errMask == s.errMask && r == reg)
      && s'.bound == s.bound && s'.ifindex == s.ifindex && s'.filters == s.filters
      && (!s.bound ==> r == reg)
  {
    var kept := mask * EffMask();
    assert kept == {} <==> forall b :: b in mask ==> b >= 29 by {
      if b :| b in mask && b < 29 { assert b in kept; }
      if b :| b in kept { assert b in mask && b < 29; }
    }
    assert |AllSpecs([], kept)| == if kept == {} then 0 else 1;
  }

  /** How often a frame from a device calls a socket. */
  function Calls(reg: Registry, o: Owner, from: nat, rid: Word): nat { multiset(Data(Received(reg, from, rid)))[o] }

  lemma RunExtends(events: seq<Event>, ev: Event, raws: set<Owner>)
    ensures RawSystem.Run(events + [ev], raws) == RawSystem.Next(RawSystem.Run(events, raws), ev, raws)
  {
    assert (events + [ev])[..|events|] == events;
  }

  /**
   After a bind that may be done, in any run, a frame from the device asked for (from any
   device, for index 0) calls the socket once for each of its filters that wants it, and a
   frame from elsewhere does not call it.
   */
  lemma BindDelivers(events: seq<Event>, raws: set<Owner>, o: Owner, index: nat, room: nat, from: nat, rid: Word)
    requires o in raws && from != 0 && IsWord(rid) && (ERR_BIT in rid || WellFormed(rid))
    requires var sys := RawSystem.Run(events, raws);
      && o in sys.socks && MayBind(sys.reg, sys.present, sys.socks[o], index, room)
      && Answerable(SpecsOf(sys, o))
    ensures var sys := RawSystem.Run(events, raws);
      Calls(RawSystem.Run(events + [Rebind(o, index, room)], raws).reg, o, from, rid) ==
        if index == 0 || index == from then Wanting(SpecsOf(sys, o), rid) else 0
  {
    var sys, after := RawSystem.Run(events, raws), RawSystem.Run(events + [Rebind(o, index, room)], raws);
    RunExtends(events, Rebind(o, index, room), raws);
    BindDoneIff(sys.reg, sys.present, sys.socks[o], o, index, room);
    assert SpecsOf(after, o) == SpecsOf(sys, o);
    SocketGetsItsFrames(events + [Rebind(o, index, room)], raws, o, from, rid);
  }

  /** A new socket wants every data and remote frame, once, and no error frame. */
  lemma NewSocketWantsAll(events: seq<Event>, raws: set<Owner>, o: Owner, rid: Word)
    requires o in raws && o !in RawSystem.Run(events, raws).socks
    ensures var sys := RawSystem.Run(events + [Open(o)], raws);
      && o in sys.socks && !sys.socks[o].bound
      && Answerable(SpecsOf(sys, o))
      && Wanting(SpecsOf(sys, o), rid) == if ERR_BIT in rid then 0 else 1
  {
    RunExtends(events, Open(o), raws);
    var specs := AllSpecs(NEW_SOCK.filters, NEW_SOCK.errMask);
    assert specs == [Spec({}, {})];
    assert rid * {} == {};
    assert Wanting(specs[1..], rid) == 0;
    assert Documented({}, {}, rid) <==> ERR_BIT !in rid;
    assert Satisfiable({}, {}) by { assert IsWord({}); }
  }

  lemma AbsentSilent(sys: Sys, raws: set<Owner>, o: Owner, from: nat, rid: Word)
    requires Inv(sys, raws) && o in raws && o !in sys.socks
    requires from != 0 && IsWord(rid) && (ERR_BIT in rid || WellFormed(rid))
    ensures Calls(sys.reg, o, from, rid) == 0
  {
    var specs := AllSpecs(NEW_SOCK.filters, NEW_SOCK.errMask);
    assert specs == [Spec({}, {})];
    assert Satisfiable({}, {}) by { assert IsWord({}); }
    assert Keeps(sys.reg, o, StateOf(sys, o));
    SocketCalls(sys.reg, o, NEW_SOCK, from, rid);
  }

  lemma CloseRemoves(events: seq<Event>, raws: set<Owner>, o: Owner)
    ensures o !in RawSystem.Run(events + [Close(o)], raws).socks
  {
    RunExtends(events, Close(o), raws);
  }

  lemma AbsentAfter(events: seq<Event>, raws: set<Owner>, o: Owner, from: nat, rid: Word)
    requires o in raws && o !in RawSystem.Run(events, raws).socks
    requires from != 0 && IsWord(rid) && (ERR_BIT in rid || WellFormed(rid))
    ensures Calls(RawSystem.Run(events, raws).reg, o, from, rid) == 0
  {
    SocketsAndRegistryAgree(events, raws);
    AbsentSilent(RawSystem.Run(events, raws), raws, o, from, rid);
  }

  /** A closed socket is called for nothing. */
  lemma CloseSilences(events: seq<Event>, raws: set<Owner>, o: Owner, from: nat, rid: Word)
    requires o in raws && from != 0 && IsWord(rid) && (ERR_BIT in rid || WellFormed(rid))
    ensures Calls(RawSystem.Run(events + [Close(o)], raws).reg, o, from, rid) == 0
  {
    CloseRemoves(events, raws, o);
    AbsentAfter(events + [Close(o)], raws, o, from, rid);
  }

  /** The state a departing device leaves a socket in. */
  function AfterDeparture(s: Sock, index: nat): Sock {
    if s.ifindex == index then s.(bound := false, ifindex := 0, filters := []) else s
  }

  lemma {:induction false} NotifiedSockets(sys: Sys, n: nat, index: nat, o: Owner)
    requires n <= |sys.chain| && index != 0
    ensures var r := NotifyFrom(sys, n, index);
      && r.socks.Keys == sys.socks.Keys
      && (o in sys.socks ==> r.socks[o] == if o in sys.chain[n..] then AfterDeparture(sys.socks[o], index) else sys.socks[o])
    decreases |sys.chain| - n
  {
    if n < |sys.chain| { NotifiedSockets(Notified(sys, sys.chain[n], index), n + 1, index, o); }
  }

  lemma DepartedSockets(sys: Sys, raws: set<Owner>, o: Owner, index: nat)
    requires Inv(sys, raws) && o in sys.socks && index in sys.present && sys.present[index]
    ensures var after := Departed(sys, index);
      index !in after.present && o in after.socks && after.socks[o] == AfterDeparture(sys.socks[o], index)
  {
    var told := Sys(Withdrawn(sys.reg, Net(index, true)), sys.present - {index}, sys.chain, sys.socks);
    assert told.chain[0..] == sys.chain;
    NotifiedSockets(told, 0, index, o);
    assert Departed(sys, index) == NotifyFrom(told, 0, index);
  }

  /** When a CAN device goes, in any run, every socket bound to it is unbound and without filters, and no other changes. */
  lemma DepartureUnbinds(events: seq<Event>, raws: set<Owner>, o: Owner, index: nat)
    requires var sys := RawSystem.Run(events, raws); o in sys.socks && index in sys.present && sys.present[index]
    ensures var sys, after := RawSystem.Run(events, raws), RawSystem.Run(events + [Departs(index)], raws);
      && index !in after.present && o in after.socks
      && after.socks[o] == AfterDeparture(sys.socks[o], index)
  {
    RunExtends(events, Departs(index), raws);
    SocketsAndRegistryAgree(events, raws);
    DepartedSockets(RawSystem.Run(events, raws), raws, o, index);
  }

  // ---------- devices and notifiers ----------

  /** A device that comes is there from then on, and if it is a CAN device and memory allows it has lists. */
  lemma ArrivalAnnounces(events: seq<Event>, raws: set<Owner>, index: nat, isCan: bool, memory: bool)
    requires var sys := RawSystem.Run(events, raws); index != 0 && index !in sys.present && index !in sys.reg.devs
    ensures var sys, after := RawSystem.Run(events, raws), RawSystem.Run(events + [Arrives(index, isCan, memory)], raws);
      && after.present == sys.present[index := isCan]
      && (index in after.reg.devs <==> isCan && memory)
      && after.socks == sys.socks
  {
    RunExtends(events, Arrives(index, isCan, memory), raws);
  }

  /** The notifier chain holds every open socket once and no other. */
  ghost predicate Chained(sys: Sys) {
    forall o :: multiset(sys.chain)[o] == if o in sys.socks then 1 else 0
  }

  lemma ChainedOpen(sys: Sys, o: Owner, raws: set<Owner>)
    requires Chained(sys)
    ensures Chained(RawSystem.Next(sys, Open(o), raws))
  {
    assert multiset(sys.chain + [o]) == multiset(sys.chain) + multiset{o};
  }

  lemma ChainedClose(sys: Sys, o: Owner, raws: set<Owner>)
    requires Chained(sys)
    ensures Chained(RawSystem.Next(sys, Close(o), raws))
  {
    if o in sys.socks {
      assert multiset(sys.chain)[o] == 1;
      WithoutSplits(sys.chain, o);
    }
  }

  lemma ChainedNext(sys: Sys, ev: Event, raws: set<Owner>)
    requires Chained(sys)
    ensures Chained(RawSystem.Next(sys, ev, raws))
  {
    match ev
    case Open(o) => ChainedOpen(sys, o, raws);
    case Close(o) => ChainedClose(sys, o, raws);
    case Departs(index) => ChainedDeparted(sys, index);
    case Rebind(o, index, room) =>
    case Filters(o, specs, room) =>
    case ErrFilter(o, mask, room) =>
    case Arrives(index, isCan, memory) =>
    case Other(add, dev, f, memory) =>
  }

  lemma {:induction false} NotifiedKeys(sys: Sys, n: nat, index: nat)
    requires n <= |sys.chain|
    ensures NotifyFrom(sys, n, index).socks.Keys == sys.socks.Keys
    decreases |sys.chain| - n
  {
    if n < |sys.chain| { NotifiedKeys(Notified(sys, sys.chain[n], index), n + 1, index); }
  }

  lemma ChainedDeparted(sys: Sys, index: nat)
    requires Chained(sys)
    ensures Chained(Departed(sys, index))
  {
    if index in sys.present && sys.present[index] {
      var told := Sys(Withdrawn(sys.reg, Net(index, true)), sys.present - {index}, sys.chain, sys.socks);
      assert Departed(sys, index) == NotifyFrom(told, 0, index);
      NotifiedKeys(told, 0, index);
    }
  }

  /** In every run each open socket is told of a departing device once, and a closed one is not. */
  lemma {:induction false} EveryRunIsChained(events: seq<Event>, raws: set<Owner>)
    ensures Chained(RawSystem.Run(events, raws))
    decreases |events|
  {
    if events != [] {
      var n := |events| - 1;
      EveryRunIsChained(events[..n], raws);
      ChainedNext(RawSystem.Run(events[..n], raws), events[n], raws);
    }
  }
}
