/** What the sockets get: in every run a frame reaches a socket once for each of its filters that wants it. */
module RawDelivery {
  import opened Words
  import opened CanFilter
  import opened CanIndex
  import opened CanRegistry
  import opened RawSockets
  import opened RawSocketRuns
  import opened RawSystem

  /** The entries of one owner. */
  function Mine(table: seq<Entry>, o: Owner): seq<Entry> {
    if table == [] then []
    else (if table[0].r.data == o then [table[0]] else []) + Mine(table[1..], o)
  }

  /** How many of the filters want an identifier, by their documented meaning. */
  function Wanting(specs: seq<Spec>, rid: Word): nat {
    if specs == [] then 0
    else (if Documented(specs[0].canId, specs[0].mask, rid) then 1 else 0) + Wanting(specs[1..], rid)
  }

  lemma {:induction false} MineCounts(table: seq<Entry>, o: Owner, x: Entry)
    ensures multiset(Mine(table, o))[x] == if x.r.data == o then multiset(table)[x] else 0
  {
    if table != [] {
      MineCounts(table[1..], o, x);
      assert multiset(table) == multiset{table[0]} + multiset(table[1..]) by {
        assert table == [table[0]] + table[1..];
      }
    }
  }

  lemma {:induction false} ProjectCounts(table: seq<Entry>, x: Entry)
    ensures multiset(Project(table, x.slot))[x.r] == multiset(table)[x]
  {
    if table != [] {
      var e, rest := table[0], table[1..];
      assert table == [e] + rest;
      ProjectCounts(rest, x);
      ProjectCons(e, rest, x.slot);
      if e.slot == x.slot {
        assert multiset(Project(table, x.slot)) == multiset{e.r} + multiset(Project(rest, x.slot));
      } else {
        assert x != e;
      }
    }
  }

  lemma {:induction false} CallsAreScans(table: seq<Entry>, o: Owner, rid: Word)
    ensures multiset(Data(Scan(table, rid)))[o] == |Scan(Mine(table, o), rid)|
  {
    if table != [] {
      var e, rest := table[0], table[1..];
      assert table == [e] + rest;
      CallsAreScans(rest, o, rid);
      ScanCons(e, rest, rid);
      if Matches(e, rid) { DataCons(e.r, Scan(rest, rid)); } else { assert Scan(table, rid) == Scan(rest, rid); }
      if e.r.data == o { ScanCons(e, Mine(rest, o), rid); } else { assert Mine(table, o) == Mine(rest, o); }
    }
  }

  lemma {:induction false} ScanWithout(table: seq<Entry>, e: Entry, rid: Word)
    requires e in table
    ensures |Scan(table, rid)| == |Scan(Without(table, e), rid)| + if Matches(e, rid) then 1 else 0
  {
    var head, rest := table[0], table[1..];
    assert table == [head] + rest;
    WithoutCons(head, rest, e);
    if head != e {
      ScanWithout(rest, e, rid);
      ScanCons(head, Without(rest, e), rid);
    }
  }

  lemma {:induction false} ScanPermutes(a: seq<Entry>, b: seq<Entry>, rid: Word)
    requires multiset(a) == multiset(b)
    ensures |Scan(a, rid)| == |Scan(b, rid)|
    decreases |a|
  {
    if a == [] {
      assert |multiset(b)| == |b|;
    } else {
      var e, rest := a[0], a[1..];
      assert e in multiset(a) && e in b;
      assert a == [e] + rest;
      WithoutSplits(b, e);
      assert multiset(a) - multiset{e} == multiset(rest);
      assert multiset(b) - multiset{e} == multiset(Without(b, e));
      ScanPermutes(rest, Without(b, e), rid);
      ScanWithout(b, e, rid);
    }
  }

  ghost predicate Answerable(specs: seq<Spec>) {
    forall s :: s in specs ==> IsWord(s.mask) && Satisfiable(s.canId, s.mask)
  }

  lemma EntriesCons(specs: seq<Spec>, o: Owner)
    requires specs != []
    ensures Entries(specs, o) == [EntryOf(FilterOf(specs[0], o))] + Entries(specs[1..], o)
  {
  }

  lemma {:induction false} ScanIsWanting(specs: seq<Spec>, o: Owner, rid: Word)
    requires Answerable(specs) && IsWord(rid) && (ERR_BIT in rid || WellFormed(rid))
    ensures |Scan(Entries(specs, o), rid)| == Wanting(specs, rid)
  {
    if specs != [] {
      assert specs[0] in specs;
      var f := FilterOf(specs[0], o);
      MatchesAsDocumented(f, rid);
      ScanIsWanting(specs[1..], o, rid);
      EntriesCons(specs, o);
      ScanCons(EntryOf(f), Entries(specs[1..], o), rid);
    }
  }

  lemma {:induction false} MineIsEntries(d: Lists, table: seq<Entry>, o: Owner, specs: seq<Spec>, x: Entry)
    requires At(d, x.slot) == Project(table, x.slot)
    requires x.r.data == o ==> Count(d, x) == multiset(Entries(specs, o))[x]
    ensures multiset(Mine(table, o))[x] == multiset(Entries(specs, o))[x]
  {
    MineCounts(table, o, x);
    ProjectCounts(table, x);
    EntriesOwned(specs, o);
  }

  /** One device's lists that hold a socket's entries call it as often as its filters want. */
  lemma {:induction false} ListsCall(d: Lists, table: seq<Entry>, o: Owner, specs: seq<Spec>, rid: Word)
    requires Indexes(d, table) && Answerable(specs) && IsWord(rid) && (ERR_BIT in rid || WellFormed(rid))
    requires forall x: Entry :: x.r.data == o ==> Count(d, x) == multiset(Entries(specs, o))[x]
    ensures multiset(Data(Delivered(d, rid)))[o] == Wanting(specs, rid)
  {
    DeliveredIsScan(d, table, rid);
    SameReceiversSameData(Delivered(d, rid), Scan(table, rid));
    CallsAreScans(table, o, rid);
    forall x ensures multiset(Mine(table, o))[x] == multiset(Entries(specs, o))[x] {
      assert At(d, x.slot) == Project(table, x.slot);
      MineIsEntries(d, table, o, specs, x);
    }
    ScanPermutes(Mine(table, o), Entries(specs, o), rid);
    ScanIsWanting(specs, o, rid);
  }

  /** What a socket should get from the lists at a spot. */
  function Due(s: Sock, spot: int, rid: Word): nat {
    if s.bound && spot == Where(s) then Wanting(AllSpecs(s.filters, s.errMask), rid) else 0
  }

  lemma SpotCalls(reg: Registry, dev: Device, o: Owner, s: Sock, rid: Word)
    requires SoundRegistry(reg) && Has(reg, dev) && Keeps(reg, o, s)
    requires Answerable(AllSpecs(s.filters, s.errMask)) && IsWord(rid) && (ERR_BIT in rid || WellFormed(rid))
    ensures multiset(Data(Delivered(Of(reg, dev), rid)))[o] == Due(s, Spot(dev), rid)
  {
    SoundOf(reg, dev);
    var d := Of(reg, dev);
    var table :| Indexes(d, table);
    var specs := if s.bound && Spot(dev) == Where(s) then AllSpecs(s.filters, s.errMask) else [];
    forall x: Entry | x.r.data == o ensures Count(d, x) == multiset(Entries(specs, o))[x] {
      assert Held(reg, Spot(dev), x) == Wanted(s, o, Spot(dev), x);
    }
    ListsCall(d, table, o, specs, rid);
  }

  lemma {:induction false} DataJoins(a: seq<Receiver>, b: seq<Receiver>)
    ensures Data(a + b) == Data(a) + Data(b)
  {
    if a == [] {
      assert a + b == b;
    } else {
      DataJoins(a[1..], b);
      assert a + b == [a[0]] + (a[1..] + b);
      DataCons(a[0], a[1..] + b);
    }
  }

  /** If the device has no lists nothing can be bound to it. */
  lemma NoListsNoCalls(reg: Registry, index: nat, o: Owner, s: Sock, rid: Word)
    requires Keeps(reg, o, s) && index !in reg.devs && index != 0
    ensures Due(s, index, rid) == 0
  {
    var specs := AllSpecs(s.filters, s.errMask);
    if specs != [] {
      var x := Entries(specs, o)[0];
      assert x in multiset(Entries(specs, o));
      assert Held(reg, index, x) == Wanted(s, o, index, x);
    }
  }

  predicate Listens(s: Sock, index: nat) { s.bound && (s.ifindex == 0 || s.ifindex == index) }

  lemma SocketCalls(reg: Registry, o: Owner, s: Sock, index: nat, rid: Word)
    requires SoundRegistry(reg) && Keeps(reg, o, s) && index != 0
    requires Answerable(AllSpecs(s.filters, s.errMask)) && IsWord(rid) && (ERR_BIT in rid || WellFormed(rid))
    ensures multiset(Data(Received(reg, index, rid)))[o] == Due(s, -1, rid) + Due(s, index, rid)
  {
    SpotCalls(reg, AnyDevice, o, s, rid);
    if index in reg.devs {
      SpotCalls(reg, Net(index, true), o, s, rid);
      DataJoins(Delivered(reg.alldev, rid), Delivered(reg.devs[index], rid));
    } else {
      NoListsNoCalls(reg, index, o, s, rid);
      assert Received(reg, index, rid) == Delivered(reg.alldev, rid);
    }
  }

  function SpecsOf(sys: Sys, o: Owner): seq<Spec> { AllSpecs(StateOf(sys, o).filters, StateOf(sys, o).errMask) }

  /**
   In every run a frame from a device calls a raw socket exactly once for each of its filters
   (and its error mask) whose documented condition the identifier meets, if the socket is
   bound to that device or to all devices, and not at all otherwise.
   */
  lemma {:induction false} SocketGetsItsFrames(events: seq<Event>, raws: set<Owner>, o: Owner, index: nat, rid: Word)
    requires o in raws && index != 0 && IsWord(rid) && (ERR_BIT in rid || WellFormed(rid))
    requires Answerable(SpecsOf(RawSystem.Run(events, raws), o))
    ensures var sys := RawSystem.Run(events, raws);
      multiset(Data(Received(sys.reg, index, rid)))[o] ==
        (if Listens(StateOf(sys, o), index) then Wanting(SpecsOf(sys, o), rid) else 0)
  {
    SocketsAndRegistryAgree(events, raws);
    var sys := RawSystem.Run(events, raws);
    SocketCalls(sys.reg, o, StateOf(sys, o), index, rid);
  }
}
