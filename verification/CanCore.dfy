/** The CAN core as it runs: receive lists changed in place and a dispatcher that walks them. */
module CanCore {
  import opened Words
  import opened CanFilter
  import opened CanIndex
  import opened CanRegistry

  /** find_rcv_list, reducing the identifier and the mask as it goes. */
  method FindRcvList(canId: Word, mask: Word) returns (slot: Slot, id: Word, m: Word)
    ensures forall data :: Normalise(canId, mask, data) == Entry(slot, Receiver(id, m, data))
  {
    id, m := canId, mask;
    var inv := ERR_BIT in id;
    if ERR_BIT in m {
      m := m * EffMask();
      return RxErr, id, m;
    }
    if EFF_BIT in m && EFF_BIT !in id {
      m := m * (SffMask() + FlagBits());
    }
    id := id * m;
    if inv { return RxInv, id, m; }
    if m == {} { return RxAll, id, m; }
    if FlagBits() <= m && RTR_BIT !in id {
      if EFF_BIT in id {
        if m == EffMask() + FlagBits() { return RxEff, id, m; }
      } else if m == SffMask() + FlagBits() {
        return RxSff(id), id, m;
      }
    }
    slot := RxFil;
  }

  class DeviceLists {
    var rx: map<Slot, seq<Receiver>>
    var entries: int
    var removeOnZero: bool

    function View(): Lists
      reads this
    {
      Lists(rx, entries, removeOnZero)
    }

    constructor ()
      ensures View() == NO_RECEIVERS
    {
      rx, entries, removeOnZero := map[], 0, false;
    }

    method Store(slot: Slot, l: seq<Receiver>)
      modifies this
      ensures View() == Put(old(View()), slot, l)
    {
      rx := if l == [] then rx - {slot} else rx[slot := l];
    }

    method AddHead(slot: Slot, r: Receiver)
      modifies this
      ensures View() == Add(old(View()), Entry(slot, r))
    {
      Store(slot, [r] + At(View(), slot));
      entries := entries + 1;
    }

    /** Search a list for a receiver and take it out. */
    method Delete(slot: Slot, r: Receiver) returns (found: bool)
      modifies this
      ensures found == (r in At(old(View()), slot))
      ensures View() == Remove(old(View()), Entry(slot, r))
    {
      var l := At(View(), slot);
      var k := 0;
      while k < |l| && l[k] != r
        invariant 0 <= k <= |l|
        invariant forall j :: 0 <= j < k ==> l[j] != r
        decreases |l| - k
      {
        k := k + 1;
      }
      if k == |l| { return false; }
      WithoutAt(l, r, k);
      Store(slot, l[..k] + l[k + 1..]);
      entries := entries - 1;
      found := true;
    }

    /** Call the receivers of one list that pass its test, counting them. */
    method Walk(slot: Slot, rid: Word) returns (called: seq<Receiver>, matches: nat)
      ensures called == Chosen(At(View(), slot), slot, rid) && matches == |called|
    {
      var l := At(View(), slot);
      called, matches := [], 0;
      var k := 0;
      while k < |l|
        invariant 0 <= k <= |l| && matches == |called|
        invariant called + Chosen(l[k..], slot, rid) == Chosen(l, slot, rid)
      {
        ChosenNext(called, l, k, slot, rid);
        if Passes(slot, l[k], rid) {
          called := called + [l[k]];
          matches := matches + 1;
        }
        k := k + 1;
      }
      assert l[k..] == [];
    }

    /** can_rcv_filter: the receivers called, in order, and their number. */
    method RcvFilter(rid: Word) returns (called: seq<Receiver>, matches: nat)
      ensures called == Delivered(View(), rid) && matches == |called|
    {
      if entries == 0 { return [], 0; }
      if ERR_BIT in rid {
        called, matches := Walk(RxErr, rid);
        return;
      }
      called, matches := Walk(RxAll, rid);
      var more, n := Walk(RxFil, rid);
      called, matches := called + more, matches + n;
      more, n := Walk(RxInv, rid);
      called, matches := called + more, matches + n;
      more, n := WalkSingle(rid);
      called, matches := called + more, matches + n;
    }

    /** The lists for a single identifier of a data frame. */
    method WalkSingle(rid: Word) returns (called: seq<Receiver>, matches: nat)
      ensures called == Last(View(), rid) && matches == |called|
    {
      if RTR_BIT in rid { return [], 0; }
      if EFF_BIT in rid {
        called, matches := Walk(RxEff, rid);
      } else {
        called, matches := Walk(RxSff(rid * SffMask()), rid);
      }
    }
  }

  /** One turn of the walk: the receiver at k comes next if it passes. */
  lemma ChosenNext(called: seq<Receiver>, l: seq<Receiver>, k: nat, slot: Slot, rid: Word)
    requires k < |l|
    ensures called + Chosen(l[k..], slot, rid) ==
      (if Passes(slot, l[k], rid) then called + [l[k]] else called) + Chosen(l[k + 1..], slot, rid)
  {
    assert l[k..] == [l[k]] + l[k + 1..];
    ChosenCons(l[k], l[k + 1..], slot, rid);
  }

  lemma {:induction false} WithoutAt<T>(s: seq<T>, x: T, k: nat)
    requires k < |s| && s[k] == x && forall j :: 0 <= j < k ==> s[j] != x
    ensures Without(s, x) == s[..k] + s[k + 1..] && x in s
  {
    assert s == [s[0]] + s[1..];
    WithoutCons(s[0], s[1..], x);
    if k > 0 {
      WithoutAt(s[1..], x, k - 1);
      assert s[..k] == [s[0]] + s[1..][..k - 1];
    }
  }

  class Core {
    const alldev: DeviceLists
    var devs: map<nat, DeviceLists>

    ghost predicate Valid()
      reads this
    {
      && alldev !in devs.Values
      && forall i, j :: i in devs && j in devs && devs[i] == devs[j] ==> i == j
    }

    ghost function Repr(): set<object>
      reads this
    {
      {this, alldev} + set i | i in devs :: devs[i]
    }

    ghost function View(): Registry
      reads Repr()
    {
      Registry(alldev.View(), map i | i in devs :: devs[i].View())
    }

    constructor ()
      ensures Valid() && View() == Registry(NO_RECEIVERS, map[]) && fresh(Repr())
    {
      alldev := new DeviceLists();
      devs := map[];
    }

    ghost function ListsOf(dev: Device): DeviceLists
      requires Has(View(), dev)
      reads Repr()
    {
      if dev.Net? then devs[dev.index] else alldev
    }

    /** When only one device's lists changed, the view changed there. */
    twostate lemma OneChanged(dev: Device)
      requires old(Valid()) && old(Has(View(), dev)) && unchanged(this)
      requires unchanged(Repr() - {old(ListsOf(dev))})
      ensures View() == With(old(View()), dev, old(ListsOf(dev)).View())
    {
      var d := old(ListsOf(dev));
      assert dev.Net? ==> alldev != d;
    }

    method RxRegister(dev: Device, f: Filter, memory: bool) returns (res: Result)
      requires Valid()
      modifies Repr()
      ensures Valid() && Repr() == old(Repr())
      ensures (View(), res) == Registered(old(View()), dev, f, memory)
    {
      if dev.Net? && !dev.isCan { return NoDevice; }
      if !memory { return NoMemory; }
      if dev.Net? && dev.index !in devs { return NoDevice; }
      ghost var before := View();
      var slot, id, m := FindRcvList(f.canId, f.mask);
      assert View() == before;
      var r := Receiver(id, m, f.data);
      assert EntryOf(f) == Entry(slot, r);
      Insert(dev, slot, r);
      res := Done;
    }

    method Insert(dev: Device, slot: Slot, r: Receiver)
      requires Valid() && Has(View(), dev)
      modifies Repr()
      ensures Valid() && Repr() == old(Repr())
      ensures View() == Enter(old(View()), dev, Entry(slot, r))
    {
      var d := if dev.Net? then devs[dev.index] else alldev;
      d.AddHead(slot, r);
      OneChanged(dev);
    }

    method RxUnregister(dev: Device, f: Filter)
      requires Valid()
      modifies Repr()
      ensures Valid() && Repr() <= old(Repr())
      ensures View() == Unregistered(old(View()), dev, f)
    {
      if dev.Net? && (!dev.isCan || dev.index !in devs) { return; }
      ghost var before := View();
      var slot, id, m := FindRcvList(f.canId, f.mask);
      assert View() == before;
      var r := Receiver(id, m, f.data);
      assert EntryOf(f) == Entry(slot, r);
      Drop(dev, slot, r);
    }

    method Drop(dev: Device, slot: Slot, r: Receiver)
      requires Valid() && Has(View(), dev)
      modifies Repr()
      ensures Valid() && Repr() <= old(Repr())
      ensures View() == Leave(old(View()), dev, Entry(slot, r))
    {
      var d := if dev.Net? then devs[dev.index] else alldev;
      var found := d.Delete(slot, r);
      OneChanged(dev);
      if found && d.removeOnZero && d.entries == 0 && dev.Net? {
        devs := devs - {dev.index};
        assert View().devs == old(View()).devs - {dev.index};
      } else {
        assert View() == Leave(old(View()), dev, Entry(slot, r));
      }
    }

    /** A device that already has lists stops the machine (BUG_ON): halted says so. */
    method NotifyRegister(dev: Device, memory: bool) returns (halted: bool)
      requires Valid()
      modifies Repr()
      ensures Valid() && fresh(Repr() - old(Repr()))
      ensures halted == (dev.Net? && dev.isCan && memory && Has(old(View()), dev))
      ensures View() == Announced(old(View()), dev, memory)
    {
      if dev.AnyDevice? || !dev.isCan || !memory { return false; }
      if dev.index in devs { return true; }
      var d := new DeviceLists();
      devs := devs[dev.index := d];
      assert View().devs == old(View()).devs[dev.index := NO_RECEIVERS];
      halted := false;
    }

    method NotifyUnregister(dev: Device)
      requires Valid()
      modifies Repr()
      ensures Valid() && Repr() <= old(Repr())
      ensures View() == Withdrawn(old(View()), dev)
    {
      if dev.AnyDevice? || !dev.isCan || dev.index !in devs { return; }
      var d := devs[dev.index];
      if d.entries != 0 {
        d.removeOnZero := true;
      } else {
        devs := devs - {dev.index};
      }
    }

    /** can_receive: receivers for all devices first, then those of this device. */
    method Receive(index: nat, rid: Word) returns (called: seq<Receiver>, matches: nat)
      requires Valid()
      ensures called == Received(View(), index, rid) && matches == |called|
    {
      called, matches := alldev.RcvFilter(rid);
      if index in devs {
        var more, n := devs[index].RcvFilter(rid);
        called, matches := called + more, matches + n;
      }
    }
  }
}
