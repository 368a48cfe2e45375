/** The raw sockets and the registry agree, call by call and in every run. */
module RawSocketRuns {
  import opened Words
  import opened CanFilter
  import opened CanIndex
  import opened CanRegistry
  import opened RawSockets

  // ---------- registering and unregistering a list of entries ----------

  ghost predicate AllPlaced(es: seq<Entry>) { forall e :: e in es ==> Placed(e) }

  lemma Tail<T>(s: seq<T>)
    requires s != []
    ensures multiset(s) == multiset(s[..|s| - 1]) + multiset{s[|s| - 1]}
  {
    assert s == s[..|s| - 1] + [s[|s| - 1]];
  }

  lemma {:induction false} EnterAllHolds(reg: Registry, dev: Device, es: seq<Entry>, spot: int, x: Entry)
    requires Has(reg, dev)
    ensures Held(EnterAll(reg, dev, es), spot, x) ==
      Held(reg, spot, x) + if spot == Spot(dev) then multiset(es)[x] else 0
    decreases |es|
  {
    if es != [] {
      Tail(es);
      EnterAllHolds(reg, dev, es[..|es| - 1], spot, x);
      EnterHolds(EnterAll(reg, dev, es[..|es| - 1]), dev, es[|es| - 1], spot, x);
    }
  }

  lemma {:induction false} EnterAllSound(reg: Registry, dev: Device, es: seq<Entry>)
    requires SoundRegistry(reg) && Has(reg, dev) && AllPlaced(es)
    ensures SoundRegistry(EnterAll(reg, dev, es))
    decreases |es|
  {
    if es != [] {
      EnterAllSound(reg, dev, es[..|es| - 1]);
      EnterSound(EnterAll(reg, dev, es[..|es| - 1]), dev, es[|es| - 1]);
    }
  }

  lemma {:induction false} LeaveAllSound(reg: Registry, dev: Device, es: seq<Entry>)
    requires SoundRegistry(reg)
    ensures SoundRegistry(LeaveAll(reg, dev, es))
    decreases |es|
  {
    if es != [] {
      LeaveAllSound(reg, dev, es[..|es| - 1]);
      LeaveSound(LeaveAll(reg, dev, es[..|es| - 1]), dev, es[|es| - 1]);
    }
  }

  lemma {:induction false} LeaveAllHolds(reg: Registry, dev: Device, es: seq<Entry>, spot: int, x: Entry)
    requires SoundRegistry(reg) && multiset(es)[x] <= Held(reg, Spot(dev), x)
    ensures Held(LeaveAll(reg, dev, es), spot, x) ==
      Held(reg, spot, x) - if spot == Spot(dev) then multiset(es)[x] else 0
    decreases |es|
  {
    if es != [] {
      Tail(es);
      var front := es[..|es| - 1];
      LeaveAllHolds(reg, dev, front, spot, x);
      LeaveAllSound(reg, dev, front);
      LeaveHolds(LeaveAll(reg, dev, front), dev, es[|es| - 1], spot, x);
    }
  }

  // ---------- undoing registrations in any order restores the lists exactly ----------

  function WithoutLast(es: seq<Entry>, e: Entry): seq<Entry>
    requires e in es
  {
    var n := |es| - 1;
    if es[n] == e then es[..n] else WithoutLast(es[..n], e) + [es[n]]
  }

  lemma {:induction false} WithoutLastSplits(es: seq<Entry>, e: Entry)
    requires e in es
    ensures multiset(es) == multiset(WithoutLast(es, e)) + multiset{e}
    ensures AllPlaced(es) ==> AllPlaced(WithoutLast(es, e))
    decreases |es|
  {
    Tail(es);
    if es[|es| - 1] != e { WithoutLastSplits(es[..|es| - 1], e); }
  }

  lemma {:induction false} EnterAllCounts(reg: Registry, dev: Device, es: seq<Entry>)
    requires Has(reg, dev)
    ensures var d := Of(EnterAll(reg, dev, es), dev);
      && d.entries == Of(reg, dev).entries + |es| && d.removeOnZero == Of(reg, dev).removeOnZero
      && forall e :: e in es ==> e.r in At(d, e.slot)
    decreases |es|
  {
    if es != [] {
      var front, last := es[..|es| - 1], es[|es| - 1];
      EnterAllCounts(reg, dev, front);
      var d := Of(EnterAll(reg, dev, front), dev);
      assert Of(EnterAll(reg, dev, es), dev) == Add(d, last);
      forall e | e in es ensures e.r in At(Add(d, last), e.slot) {
        AtPut(d, last.slot, [last.r] + At(d, last.slot), e.slot);
        assert e == last || e in front;
      }
    }
  }

  lemma RemoveFromAdded(d: Lists, l: Entry, e: Entry)
    requires Canonical(d) && l != e && e.r in At(d, e.slot)
    ensures e.r in At(Add(d, l), e.slot) && Remove(Add(d, l), e) == Add(Remove(d, e), l)
  {
    var b := At(d, l.slot);
    if l.slot == e.slot {
      WithoutCons(l.r, b, e.r);
      assert l.r != e.r;
      assert At(Remove(d, e), l.slot) == Without(b, e.r);
    }
    assert Remove(Add(d, l), e).rx == Add(Remove(d, e), l).rx;
  }

  lemma LeaveCommutes(reg: Registry, dev: Device, l: Entry, e: Entry)
    requires Has(reg, dev) && Canonical(Of(reg, dev)) && l != e
    requires e.r in At(Of(reg, dev), e.slot) && !Frees(reg, dev, e)
    requires Of(reg, dev).removeOnZero ==> Of(reg, dev).entries > 0
    ensures Has(Leave(reg, dev, e), dev)
    ensures Leave(Enter(reg, dev, l), dev, e) == Enter(Leave(reg, dev, e), dev, l)
  {
    var d := Of(reg, dev);
    RemoveFromAdded(d, l, e);
    assert Of(Enter(reg, dev, l), dev) == Add(d, l);
    assert Leave(reg, dev, e) == With(reg, dev, Remove(d, e));
    assert Of(With(reg, dev, Remove(d, e)), dev) == Remove(d, e);
  }

  lemma LeaveBelow(reg: Registry, dev: Device, front: seq<Entry>, w: seq<Entry>, l: Entry, e: Entry)
    requires SoundRegistry(reg) && Has(reg, dev) && AllPlaced(front) && e in front && l != e
    requires Leave(EnterAll(reg, dev, front), dev, e) == EnterAll(reg, dev, w)
    ensures Leave(Enter(EnterAll(reg, dev, front), dev, l), dev, e) == EnterAll(reg, dev, w + [l])
  {
    var r := EnterAll(reg, dev, front);
    EnterAllSound(reg, dev, front);
    SoundOf(reg, dev);
    SoundOf(r, dev);
    EnterAllCounts(reg, dev, front);
    LeaveCommutes(r, dev, l, e);
    assert (w + [l])[..|w|] == w;
  }

  lemma {:induction false} LeaveOneOfAll(reg: Registry, dev: Device, es: seq<Entry>, e: Entry)
    requires SoundRegistry(reg) && Has(reg, dev) && AllPlaced(es) && e in es
    ensures Leave(EnterAll(reg, dev, es), dev, e) == EnterAll(reg, dev, WithoutLast(es, e))
    decreases |es|
  {
    var n := |es| - 1;
    var front, l := es[..n], es[n];
    var r := EnterAll(reg, dev, front);
    assert EnterAll(reg, dev, es) == Enter(r, dev, l);
    if l == e {
      EnterAllSound(reg, dev, front);
      EnterThenLeave(r, dev, e);
    } else {
      LeaveOneOfAll(reg, dev, front, e);
      LeaveBelow(reg, dev, front, WithoutLast(front, e), l, e);
      assert WithoutLast(es, e) == WithoutLast(front, e) + [l];
    }
  }

  lemma {:induction false} LeaveSome(reg: Registry, dev: Device, es: seq<Entry>, out: seq<Entry>)
    returns (rest: seq<Entry>)
    requires SoundRegistry(reg) && Has(reg, dev) && AllPlaced(es) && multiset(out) <= multiset(es)
    ensures multiset(es) == multiset(rest) + multiset(out) && AllPlaced(rest)
    ensures LeaveAll(EnterAll(reg, dev, es), dev, out) == EnterAll(reg, dev, rest)
    decreases |out|
  {
    if out == [] { return es; }
    var front, e := out[..|out| - 1], out[|out| - 1];
    Tail(out);
    rest := LeaveSome(reg, dev, es, front);
    assert (multiset(front) + multiset{e})[e] <= multiset(es)[e];
    assert e in multiset(rest);
    LeaveOneOfAll(reg, dev, rest, e);
    WithoutLastSplits(rest, e);
    rest := WithoutLast(rest, e);
  }

  lemma {:induction false} UndoAll(reg: Registry, dev: Device, es: seq<Entry>)
    requires SoundRegistry(reg) && Has(reg, dev) && AllPlaced(es)
    ensures LeaveAll(EnterAll(reg, dev, es), dev, es) == reg
  {
    var rest := LeaveSome(reg, dev, es, es);
    assert |multiset(rest) + multiset(es)| == |multiset(rest)| + |multiset(es)|;
    assert |rest| == 0;
  }

  // ---------- a socket's entries ----------

  function Where(s: Sock): int { if s.ifindex == 0 then -1 else s.ifindex }

  function Own(s: Sock, owner: Owner): multiset<Entry> {
    multiset(Entries(AllSpecs(s.filters, s.errMask), owner))
  }

  /** How often an entry should be in a list: the bound socket's filters and error mask, there only. */
  function Wanted(s: Sock, owner: Owner, spot: int, x: Entry): nat {
    if s.bound && spot == Where(s) then Own(s, owner)[x] else 0
  }

  /** The registry holds exactly the socket's entries. */
  ghost predicate Keeps(reg: Registry, owner: Owner, s: Sock) {
    forall spot, x: Entry :: x.r.data == owner ==> Held(reg, spot, x) == Wanted(s, owner, spot, x)
  }

  predicate Attached(s: Sock, present: map<nat, bool>) {
    s.bound && s.ifindex != 0 ==> s.ifindex in present && present[s.ifindex]
  }

  lemma EntriesOwned(specs: seq<Spec>, owner: Owner)
    ensures AllPlaced(Entries(specs, owner))
    ensures forall x: Entry :: x.r.data != owner ==> multiset(Entries(specs, owner))[x] == 0
  {
    forall x: Entry | x.r.data != owner ensures multiset(Entries(specs, owner))[x] == 0 {
      assert x !in Entries(specs, owner);
    }
  }

  lemma EnabledHolds(reg: Registry, dev: Device, specs: seq<Spec>, owner: Owner, room: nat, spot: int, x: Entry)
    requires SoundRegistry(reg)
    ensures var (r, res) := Enabled(reg, dev, specs, owner, room);
      && SoundRegistry(r)
      && (if res.Done?
          then Held(r, spot, x) == Held(reg, spot, x) +
            (if spot == Spot(dev) then multiset(Entries(specs, owner))[x] else 0)
          else r == reg)
  {
    var (r, res) := Enabled(reg, dev, specs, owner, room);
    if res.Done? && specs != [] {
      EntriesOwned(specs, owner);
      EnterAllSound(reg, dev, Entries(specs, owner));
      EnterAllHolds(reg, dev, Entries(specs, owner), spot, x);
    }
  }

  lemma DisabledHolds(reg: Registry, dev: Device, specs: seq<Spec>, owner: Owner, spot: int, x: Entry)
    requires SoundRegistry(reg) && !Foreign(dev)
    requires x.r.data == owner ==> multiset(Entries(specs, owner))[x] <= Held(reg, Spot(dev), x)
    ensures var r := Disabled(reg, dev, specs, owner);
      && SoundRegistry(r)
      && Held(r, spot, x) == Held(reg, spot, x) -
        (if spot == Spot(dev) then multiset(Entries(specs, owner))[x] else 0)
  {
    EntriesOwned(specs, owner);
    LeaveAllSound(reg, dev, Entries(specs, owner));
    LeaveAllHolds(reg, dev, Entries(specs, owner), spot, x);
  }

  /** One entry after a call: the caller's as its new state wants it, everybody else's as before. */
  predicate Settled(before: Registry, after: Registry, owner: Owner, s: Sock, spot: int, x: Entry) {
    Held(after, spot, x) == if x.r.data == owner then Wanted(s, owner, spot, x) else Held(before, spot, x)
  }

  lemma DetachHolds(reg: Registry, present: map<nat, bool>, s: Sock, owner: Owner, spot: int, x: Entry)
    requires SoundRegistry(reg) && Attached(s, present)
    requires x.r.data == owner ==> Wanted(s, owner, Where(s), x) <= Held(reg, Where(s), x)
    ensures var r := Detached(reg, present, s, owner);
      && SoundRegistry(r)
      && Held(r, spot, x) == Held(reg, spot, x) - Wanted(s, owner, spot, x)
  {
    EntriesOwned(AllSpecs(s.filters, s.errMask), owner);
    if s.bound {
      DisabledHolds(reg, Lookup(present, s.ifindex), AllSpecs(s.filters, s.errMask), owner, spot, x);
    }
  }

  /** Moving a socket to another device: its entries go up there and come down here. */
  lemma MoveSettles(reg: Registry, r: Registry, present: map<nat, bool>, s: Sock, owner: Owner, index: nat, spot: int, x: Entry)
    requires SoundRegistry(r) && Attached(s, present) && !(s.bound && index == s.ifindex)
    requires forall at :: at in {spot, Where(s)} ==>
      && Held(r, at, x) == Held(reg, at, x) + (if at == Where(s.(ifindex := index)) then Own(s, owner)[x] else 0)
      && (x.r.data == owner ==> Held(reg, at, x) == Wanted(s, owner, at, x))
    ensures var d := Detached(r, present, s, owner);
      SoundRegistry(d) && Settled(reg, d, owner, s.(bound := true, ifindex := index), spot, x)
  {
    assert spot in {spot, Where(s)} && Where(s) in {spot, Where(s)};
    EntriesOwned(AllSpecs(s.filters, s.errMask), owner);
    DetachHolds(r, present, s, owner, spot, x);
  }

  lemma BindSettles(reg: Registry, present: map<nat, bool>, s: Sock, owner: Owner, index: nat, room: nat, spot: int, x: Entry)
    requires SoundRegistry(reg) && Keeps(reg, owner, s) && Attached(s, present)
    ensures var (r, s', res) := Bind(reg, present, s, owner, index, room);
      SoundRegistry(r) && Settled(reg, r, owner, s', spot, x)
  {
    if !(s.bound && index == s.ifindex) && (index == 0 || (index in present && present[index])) {
      var dev := Lookup(present, index);
      var specs := AllSpecs(s.filters, s.errMask);
      var (r, res) := Enabled(reg, dev, specs, owner, room);
      EnabledHolds(reg, dev, specs, owner, room, spot, x);
      EnabledHolds(reg, dev, specs, owner, room, Where(s), x);
      if res.Done? { MoveSettles(reg, r, present, s, owner, index, spot, x); }
    }
  }

  lemma OwnSplits(s: Sock, owner: Owner)
    ensures Own(s, owner) ==
      multiset(Entries(s.filters, owner)) + multiset(Entries(AllSpecs([], s.errMask), owner))
  {
    assert Entries(AllSpecs(s.filters, s.errMask), owner) ==
      Entries(s.filters, owner) + Entries(AllSpecs([], s.errMask), owner);
  }

  /** The entry counts when part of a bound socket's entries has been replaced. */
  lemma SwapCounts(reg: Registry, r: Registry, s: Sock, s': Sock, owner: Owner, now: multiset<Entry>, gone: multiset<Entry>,
                   kept: multiset<Entry>, spot: int, x: Entry)
    requires Keeps(reg, owner, s) && s.bound && s'.bound && s'.ifindex == s.ifindex
    requires Own(s, owner) == gone + kept && Own(s', owner) == now + kept
    requires x.r.data != owner ==> now[x] == 0 && gone[x] == 0
    requires Held(r, spot, x) + (if spot == Where(s) then gone[x] else 0) ==
      Held(reg, spot, x) + if spot == Where(s) then now[x] else 0
    ensures Settled(reg, r, owner, s', spot, x)
  {
    if x.r.data == owner { assert Held(reg, spot, x) == Wanted(s, owner, spot, x); }
  }

  /** Replacing part of a bound socket's entries: the new ones in, then the old ones out. */
  lemma SwapSettles(reg: Registry, s: Sock, s': Sock, owner: Owner, dev: Device,
                    now: seq<Spec>, gone: seq<Spec>, kept: seq<Spec>, room: nat, spot: int, x: Entry)
    requires SoundRegistry(reg) && Keeps(reg, owner, s) && s.bound && !Foreign(dev) && Spot(dev) == Where(s)
    requires s'.bound && s'.ifindex == s.ifindex
    requires Own(s, owner) == multiset(Entries(gone, owner)) + multiset(Entries(kept, owner))
    requires Own(s', owner) == multiset(Entries(now, owner)) + multiset(Entries(kept, owner))
    ensures var (r, res) := Enabled(reg, dev, now, owner, room);
      if res.Done?
      then SoundRegistry(Disabled(r, dev, gone, owner)) &&
        Settled(reg, Disabled(r, dev, gone, owner), owner, s', spot, x)
      else r == reg && Settled(reg, r, owner, s, spot, x)
  {
    var (r, res) := Enabled(reg, dev, now, owner, room);
    EnabledHolds(reg, dev, now, owner, room, spot, x);
    if res.Done? {
      EntriesOwned(now, owner);
      EntriesOwned(gone, owner);
      if x.r.data == owner {
        EnabledHolds(reg, dev, now, owner, room, Where(s), x);
        assert Held(reg, Where(s), x) == Wanted(s, owner, Where(s), x);
      }
      DisabledHolds(r, dev, gone, owner, spot, x);
      SwapCounts(reg, Disabled(r, dev, gone, owner), s, s', owner, multiset(Entries(now, owner)),
                 multiset(Entries(gone, owner)), multiset(Entries(kept, owner)), spot, x);
    } else if x.r.data == owner {
      assert Held(reg, spot, x) == Wanted(s, owner, spot, x);
    }
  }

  lemma SetFilterSettles(reg: Registry, present: map<nat, bool>, s: Sock, owner: Owner, specs: seq<Spec>, room: nat,
                         spot: int, x: Entry)
    requires SoundRegistry(reg) && Keeps(reg, owner, s) && Attached(s, present)
    ensures var (r, s', res) := SetFilter(reg, present, s, owner, specs, room);
      SoundRegistry(r) && Settled(reg, r, owner, s', spot, x)
  {
    if s.bound {
      var s' := s.(filters := specs);
      OwnSplits(s, owner);
      OwnSplits(s', owner);
      SwapSettles(reg, s, s', owner, Lookup(present, s.ifindex), specs, s.filters, AllSpecs([], s.errMask), room, spot, x);
    } else {
      assert x.r.data == owner ==> Held(reg, spot, x) == Wanted(s, owner, spot, x);
    }
  }

  lemma SetErrFilterSettles(reg: Registry, present: map<nat, bool>, s: Sock, owner: Owner, mask: Word, room: nat,
                            spot: int, x: Entry)
    requires SoundRegistry(reg) && Keeps(reg, owner, s) && Attached(s, present)
    ensures var (r, s', res) := SetErrFilter(reg, present, s, owner, mask, room);
      SoundRegistry(r) && Settled(reg, r, owner, s', spot, x)
  {
    if s.bound {
      var s' := s.(errMask := mask * EffMask());
      OwnSplits(s, owner);
      OwnSplits(s', owner);
      SwapSettles(reg, s, s', owner, Lookup(present, s.ifindex),
                  AllSpecs([], s'.errMask), AllSpecs([], s.errMask), s.filters, room, spot, x);
    } else {
      assert x.r.data == owner ==> Held(reg, spot, x) == Wanted(s, owner, spot, x);
    }
  }

  lemma BereftSettles(reg: Registry, s: Sock, owner: Owner, index: nat, spot: int, x: Entry)
    requires SoundRegistry(reg) && Keeps(reg, owner, s) && index != 0
    ensures var (r, s') := Bereft(reg, s, owner, index);
      SoundRegistry(r) && Settled(reg, r, owner, s', spot, x)
  {
    if x.r.data == owner {
      assert Held(reg, spot, x) == Wanted(s, owner, spot, x);
      assert Held(reg, Where(s), x) == Wanted(s, owner, Where(s), x);
    }
    if s.ifindex == index && s.bound {
      EntriesOwned(AllSpecs(s.filters, s.errMask), owner);
      DisabledHolds(reg, Net(index, true), AllSpecs(s.filters, s.errMask), owner, spot, x);
    }
  }

  lemma ReleaseSettles(reg: Registry, present: map<nat, bool>, s: Sock, owner: Owner, spot: int, x: Entry)
    requires SoundRegistry(reg) && Keeps(reg, owner, s) && Attached(s, present)
    ensures var r := Detached(reg, present, s, owner);
      SoundRegistry(r) && Settled(reg, r, owner, NEW_SOCK, spot, x)
  {
    if x.r.data == owner {
      assert Held(reg, spot, x) == Wanted(s, owner, spot, x);
      assert Held(reg, Where(s), x) == Wanted(s, owner, Where(s), x);
    }
    EntriesOwned(AllSpecs(s.filters, s.errMask), owner);
    DetachHolds(reg, present, s, owner, spot, x);
  }
}
