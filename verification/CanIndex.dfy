/**
 The receive lists of one device, and their agreement with a plain table of
 registrations that is scanned from end to end.
 */
module CanIndex {
  import opened Words
  import opened CanFilter

  /** dev_rcv_lists; a list that is not in rx is empty. */
  datatype Lists = Lists(rx: map<Slot, seq<Receiver>>, entries: int, removeOnZero: bool)

  const NO_RECEIVERS := Lists(map[], 0, false)

  function At(d: Lists, slot: Slot): seq<Receiver> {
    if slot in d.rx then d.rx[slot] else []
  }

  function Put(d: Lists, slot: Slot, l: seq<Receiver>): Lists {
    d.(rx := if l == [] then d.rx - {slot} else d.rx[slot := l])
  }

  /** hlist_add_head and the entry count. */
  function Add(d: Lists, e: Entry): Lists {
    Put(d, e.slot, [e.r] + At(d, e.slot)).(entries := d.entries + 1)
  }

  /** s without the first x in it. */
  function Without<T(==)>(s: seq<T>, x: T): seq<T> {
    if s == [] then [] else if s[0] == x then s[1..] else [s[0]] + Without(s[1..], x)
  }

  /** Delete the first receiver equal to the entry's; a missing one is only warned about. */
  function Remove(d: Lists, e: Entry): Lists {
    if e.r in At(d, e.slot)
    then Put(d, e.slot, Without(At(d, e.slot), e.r)).(entries := d.entries - 1)
    else d
  }

  // ---------- the receive path ----------

  function Chosen(l: seq<Receiver>, slot: Slot, rid: Word): seq<Receiver> {
    if l == [] then [] else (if Passes(slot, l[0], rid) then [l[0]] else []) + Chosen(l[1..], slot, rid)
  }

  function SffSlot(rid: Word): Slot { RxSff(rid * SffMask()) }

  function Last(d: Lists, rid: Word): seq<Receiver> {
    if RTR_BIT in rid then []
    else if EFF_BIT in rid then Chosen(At(d, RxEff), RxEff, rid)
    else Chosen(At(d, SffSlot(rid)), SffSlot(rid), rid)
  }

  /** The receivers can_rcv_filter calls, in its order. */
  function Delivered(d: Lists, rid: Word): seq<Receiver> {
    if d.entries == 0 then []
    else if ERR_BIT in rid then Chosen(At(d, RxErr), RxErr, rid)
    else
      Chosen(At(d, RxAll), RxAll, rid) + Chosen(At(d, RxFil), RxFil, rid) + Chosen(At(d, RxInv), RxInv, rid) +
      Last(d, rid)
  }

  // ---------- the table of registrations ----------

  /** The registrations of one list, newest first as in the table. */
  function Project(table: seq<Entry>, slot: Slot): seq<Receiver> {
    if table == [] then []
    else (if table[0].slot == slot then [table[0].r] else []) + Project(table[1..], slot)
  }

  /** The plain scan: every registration whose filter holds. */
  function Scan(table: seq<Entry>, rid: Word): seq<Receiver> {
    if table == [] then []
    else (if Matches(table[0], rid) then [table[0].r] else []) + Scan(table[1..], rid)
  }

  ghost predicate Canonical(d: Lists) {
    forall slot :: slot in d.rx ==> d.rx[slot] != []
  }

  /** The lists hold exactly the table, and the entry count is its length. */
  ghost predicate Indexes(d: Lists, table: seq<Entry>) {
    && Canonical(d)
    && d.entries == |table|
    && (forall slot :: At(d, slot) == Project(table, slot))
    && (forall e :: e in table ==> Placed(e))
  }

  lemma {:induction false} ProjectHas(table: seq<Entry>, e: Entry)
    ensures e in table <==> e.r in Project(table, e.slot)
  {
    if table != [] {
      ProjectHas(table[1..], e);
      assert e in table <==> e == table[0] || e in table[1..];
      assert table[0] == Entry(table[0].slot, table[0].r);
    }
  }

  lemma WithoutCons<T>(x: T, s: seq<T>, y: T)
    ensures Without([x] + s, y) == if x == y then s else [x] + Without(s, y)
  {
    assert ([x] + s)[1..] == s;
  }

  lemma ProjectCons(e: Entry, table: seq<Entry>, slot: Slot)
    ensures Project([e] + table, slot) == if e.slot == slot then [e.r] + Project(table, slot) else Project(table, slot)
  {
    assert ([e] + table)[1..] == table;
  }

  lemma {:induction false} ProjectWithout(table: seq<Entry>, e: Entry, slot: Slot)
    requires e in table
    ensures Project(Without(table, e), slot) ==
      if slot == e.slot then Without(Project(table, slot), e.r) else Project(table, slot)
  {
    var head, rest := table[0], table[1..];
    assert table == [head] + rest;
    WithoutCons(head, rest, e);
    ProjectCons(head, rest, slot);
    if head != e {
      assert e in rest;
      ProjectWithout(rest, e, slot);
      ProjectCons(head, Without(rest, e), slot);
    }
    if head.slot == slot { WithoutCons(head.r, Project(rest, slot), e.r); }
  }

  lemma {:induction false} WithoutMembers<T>(s: seq<T>, x: T)
    requires x in s
    ensures |Without(s, x)| == |s| - 1 && forall y :: y in Without(s, x) ==> y in s
  {
    assert s == [s[0]] + s[1..];
    WithoutCons(s[0], s[1..], x);
    if s[0] != x { WithoutMembers(s[1..], x); }
  }

  lemma AddIndexes(d: Lists, table: seq<Entry>, e: Entry)
    requires Indexes(d, table) && Placed(e)
    ensures Indexes(Add(d, e), [e] + table)
  {
    forall slot ensures At(Add(d, e), slot) == Project([e] + table, slot) {
      assert At(d, slot) == Project(table, slot);
      ProjectCons(e, table, slot);
    }
  }

  lemma AtPut(d: Lists, slot: Slot, l: seq<Receiver>, other: Slot)
    ensures At(Put(d, slot, l), other) == if other == slot then l else At(d, other)
  {
  }

  lemma RemoveIndexes(d: Lists, table: seq<Entry>, e: Entry)
    requires Indexes(d, table)
    ensures Indexes(Remove(d, e), if e in table then Without(table, e) else table)
  {
    ProjectHas(table, e);
    assert At(d, e.slot) == Project(table, e.slot);
    if e in table {
      forall slot ensures At(Remove(d, e), slot) == Project(Without(table, e), slot) {
        assert At(d, slot) == Project(table, slot);
        RemoveIndexesAt(d, table, e, slot);
      }
      WithoutMembers(table, e);
    }
  }

  lemma RemoveIndexesAt(d: Lists, table: seq<Entry>, e: Entry, slot: Slot)
    requires e in table && e.r in At(d, e.slot)
    requires At(d, slot) == Project(table, slot) && At(d, e.slot) == Project(table, e.slot)
    ensures At(Remove(d, e), slot) == Project(Without(table, e), slot)
  {
    ProjectWithout(table, e, slot);
    AtPut(d, e.slot, Without(At(d, e.slot), e.r), slot);
  }

  /** Unregistering what was just registered restores every list and the count. */
  lemma AddThenRemove(d: Lists, e: Entry)
    requires Canonical(d)
    ensures Remove(Add(d, e), e) == d
  {
    var l := At(d, e.slot);
    assert At(Add(d, e), e.slot) == [e.r] + l;
    assert Without([e.r] + l, e.r) == l by { assert ([e.r] + l)[1..] == l; }
    assert Remove(Add(d, e), e).rx == d.rx;
  }

  // ---------- the index selects what the scan selects ----------

  /** What one list of a table contributes. */
  function Listed(table: seq<Entry>, slot: Slot, rid: Word): multiset<Receiver> {
    if Walked(slot, rid) then multiset(Chosen(Project(table, slot), slot, rid)) else multiset{}
  }

  function Selected(table: seq<Entry>, rid: Word): multiset<Receiver> {
    Listed(table, RxErr, rid) + Listed(table, RxAll, rid) + Listed(table, RxFil, rid) +
    Listed(table, RxInv, rid) + Listed(table, RxEff, rid) + Listed(table, SffSlot(rid), rid)
  }

  /** 1 if the entry is in this list and the receive path picks it there. */
  function Picked(e: Entry, slot: Slot, rid: Word): nat {
    if e.slot == slot && Walked(slot, rid) && Passes(slot, e.r, rid) then 1 else 0
  }

  lemma ListedGrows(e: Entry, table: seq<Entry>, slot: Slot, rid: Word, x: Receiver)
    ensures Listed([e] + table, slot, rid)[x] ==
      (if x == e.r then Picked(e, slot, rid) else 0) + Listed(table, slot, rid)[x]
  {
    ProjectCons(e, table, slot);
    ChosenCons(e.r, Project(table, slot), slot, rid);
  }

  lemma ChosenCons(r: Receiver, l: seq<Receiver>, slot: Slot, rid: Word)
    ensures Chosen([r] + l, slot, rid) == (if Passes(slot, r, rid) then [r] else []) + Chosen(l, slot, rid)
  {
    assert ([r] + l)[1..] == l;
  }

  lemma PickedOnce(e: Entry, rid: Word)
    ensures Picked(e, RxErr, rid) + Picked(e, RxAll, rid) + Picked(e, RxFil, rid) +
            Picked(e, RxInv, rid) + Picked(e, RxEff, rid) + Picked(e, SffSlot(rid), rid) ==
      if Walked(e.slot, rid) && Passes(e.slot, e.r, rid) then 1 else 0
  {
  }

  lemma SelectedGrows(e: Entry, table: seq<Entry>, rid: Word, x: Receiver)
    ensures Selected([e] + table, rid)[x] == Selected(table, rid)[x] +
      if x == e.r && Walked(e.slot, rid) && Passes(e.slot, e.r, rid) then 1 else 0
  {
    ListedGrows(e, table, RxErr, rid, x);
    ListedGrows(e, table, RxAll, rid, x);
    ListedGrows(e, table, RxFil, rid, x);
    ListedGrows(e, table, RxInv, rid, x);
    ListedGrows(e, table, RxEff, rid, x);
    ListedGrows(e, table, SffSlot(rid), rid, x);
    PickedOnce(e, rid);
  }

  lemma ScanCons(e: Entry, table: seq<Entry>, rid: Word)
    ensures Scan([e] + table, rid) == (if Matches(e, rid) then [e.r] else []) + Scan(table, rid)
  {
    assert ([e] + table)[1..] == table;
  }

  lemma {:induction false} SelectedIsScanAt(table: seq<Entry>, rid: Word, x: Receiver)
    requires IsWord(rid) && forall e :: e in table ==> Placed(e)
    ensures Selected(table, rid)[x] == multiset(Scan(table, rid))[x]
  {
    if table != [] {
      var e, rest := table[0], table[1..];
      assert table == [e] + rest && e in table;
      SelectedIsScanAt(rest, rid, x);
      ListTestIsExact(e, rid);
      ScanCons(e, rest, rid);
      SelectedGrows(e, rest, rid, x);
    }
  }

  lemma SelectedIsScan(table: seq<Entry>, rid: Word)
    requires IsWord(rid) && forall e :: e in table ==> Placed(e)
    ensures Selected(table, rid) == multiset(Scan(table, rid))
  {
    forall x ensures Selected(table, rid)[x] == multiset(Scan(table, rid))[x] {
      SelectedIsScanAt(table, rid, x);
    }
  }

  lemma Joined<T>(a: seq<T>, b: seq<T>, c: seq<T>, d: seq<T>, x: T)
    ensures multiset(a + b + c + d)[x] == multiset(a)[x] + multiset(b)[x] + multiset(c)[x] + multiset(d)[x]
  {
  }

  lemma LastListed(d: Lists, table: seq<Entry>, rid: Word)
    requires ERR_BIT !in rid
    requires At(d, RxEff) == Project(table, RxEff) && At(d, SffSlot(rid)) == Project(table, SffSlot(rid))
    ensures multiset(Last(d, rid)) == Listed(table, RxEff, rid) + Listed(table, SffSlot(rid), rid)
  {
  }

  lemma SelectedAt(table: seq<Entry>, rid: Word, x: Receiver)
    requires ERR_BIT !in rid
    ensures Selected(table, rid)[x] ==
      Listed(table, RxAll, rid)[x] + Listed(table, RxFil, rid)[x] + Listed(table, RxInv, rid)[x] +
      (Listed(table, RxEff, rid) + Listed(table, SffSlot(rid), rid))[x]
  {
    assert Listed(table, RxErr, rid) == multiset{};
  }

  ghost predicate SameLists(d: Lists, table: seq<Entry>, rid: Word) {
    && At(d, RxErr) == Project(table, RxErr) && At(d, RxAll) == Project(table, RxAll)
    && At(d, RxFil) == Project(table, RxFil) && At(d, RxInv) == Project(table, RxInv)
    && At(d, RxEff) == Project(table, RxEff) && At(d, SffSlot(rid)) == Project(table, SffSlot(rid))
  }

  /** Four lists one after the other hold what their tables' lists hold. */
  lemma DeliveredAt(d: Lists, table: seq<Entry>, rid: Word, x: Receiver)
    requires d.entries != 0 && ERR_BIT !in rid && SameLists(d, table, rid)
    ensures multiset(Delivered(d, rid))[x] == Selected(table, rid)[x]
  {
    var all, fil, inv := Chosen(At(d, RxAll), RxAll, rid), Chosen(At(d, RxFil), RxFil, rid), Chosen(At(d, RxInv), RxInv, rid);
    assert Delivered(d, rid) == all + fil + inv + Last(d, rid);
    Joined(all, fil, inv, Last(d, rid), x);
    WalkedListed(d, table, RxAll, rid);
    WalkedListed(d, table, RxFil, rid);
    WalkedListed(d, table, RxInv, rid);
    LastListed(d, table, rid);
    SelectedAt(table, rid, x);
  }

  lemma WalkedListed(d: Lists, table: seq<Entry>, slot: Slot, rid: Word)
    requires Walked(slot, rid) && At(d, slot) == Project(table, slot)
    ensures multiset(Chosen(At(d, slot), slot, rid)) == Listed(table, slot, rid)
  {
  }

  lemma DeliveredIsSelected(d: Lists, table: seq<Entry>, rid: Word)
    requires d.entries != 0 && SameLists(d, table, rid)
    ensures multiset(Delivered(d, rid)) == Selected(table, rid)
  {
    if ERR_BIT in rid {
      SelectedOfError(table, rid);
    } else {
      forall x ensures multiset(Delivered(d, rid))[x] == Selected(table, rid)[x] {
        DeliveredAt(d, table, rid, x);
      }
    }
  }

  lemma SelectedOfError(table: seq<Entry>, rid: Word)
    requires ERR_BIT in rid
    ensures Selected(table, rid) == multiset(Chosen(Project(table, RxErr), RxErr, rid))
  {
  }

  /** The receive path calls exactly the receivers a scan of all registrations would call. */
  lemma DeliveredIsScan(d: Lists, table: seq<Entry>, rid: Word)
    requires Indexes(d, table) && IsWord(rid)
    ensures multiset(Delivered(d, rid)) == multiset(Scan(table, rid))
  {
    if table != [] {
      DeliveredIsSelected(d, table, rid);
      SelectedIsScan(table, rid);
    }
  }

  // ---------- filters as the users gave them ----------

  datatype Filter = Filter(canId: Word, mask: Word, data: nat)

  function EntryOf(f: Filter): (e: Entry)
    ensures Placed(e) && e.r.data == f.data
  {
    Normalise(f.canId, f.mask, f.data)
  }

  function EntriesOf(fs: seq<Filter>): seq<Entry> {
    if fs == [] then [] else [EntryOf(fs[0])] + EntriesOf(fs[1..])
  }

  function Data(rs: seq<Receiver>): seq<nat> {
    if rs == [] then [] else [rs[0].data] + Data(rs[1..])
  }

  /** Who is to be called for an identifier, by the documented filter condition. */
  function Subscribers(fs: seq<Filter>, rid: Word): seq<nat> {
    if fs == [] then []
    else (if Documented(fs[0].canId, fs[0].mask, rid) then [fs[0].data] else []) + Subscribers(fs[1..], rid)
  }

  lemma MatchesAsDocumented(f: Filter, rid: Word)
    requires IsWord(f.mask) && Satisfiable(f.canId, f.mask)
    requires IsWord(rid) && (ERR_BIT in rid || WellFormed(rid))
    ensures Matches(EntryOf(f), rid) <==> Documented(f.canId, f.mask, rid)
  {
    if ERR_BIT in f.mask {
      ErrorFilterAsDocumented(f.canId, f.mask, f.data, rid);
    } else if ERR_BIT !in rid {
      SatisfiableMatches(f.canId, f.mask, f.data, rid);
    }
  }

  lemma {:induction false} ScanAsDocumented(fs: seq<Filter>, rid: Word)
    requires forall f :: f in fs ==> IsWord(f.mask) && Satisfiable(f.canId, f.mask)
    requires IsWord(rid) && (ERR_BIT in rid || WellFormed(rid))
    ensures Data(Scan(EntriesOf(fs), rid)) == Subscribers(fs, rid)
  {
    if fs != [] {
      assert fs[0] in fs;
      MatchesAsDocumented(fs[0], rid);
      ScanAsDocumented(fs[1..], rid);
      var rest := Scan(EntriesOf(fs[1..]), rid);
      ScanCons(EntryOf(fs[0]), EntriesOf(fs[1..]), rid);
      DataCons(EntryOf(fs[0]).r, rest);
      assert [] + rest == rest;
    }
  }

  lemma DataCons(r: Receiver, rs: seq<Receiver>)
    ensures Data([r] + rs) == [r.data] + Data(rs)
  {
    assert ([r] + rs)[1..] == rs;
  }

  lemma {:induction false} DataWithout(rs: seq<Receiver>, x: Receiver)
    requires x in rs
    ensures multiset(Data(rs)) == multiset{x.data} + multiset(Data(Without(rs, x)))
  {
    if rs[0] != x {
      DataWithout(rs[1..], x);
      var w := Without(rs, x);
      assert w == [rs[0]] + Without(rs[1..], x) && w[1..] == Without(rs[1..], x);
      assert Data(w) == [rs[0].data] + Data(w[1..]);
    }
    assert Data(rs) == [rs[0].data] + Data(rs[1..]);
  }

  lemma {:induction false} WithoutSplits<T>(s: seq<T>, x: T)
    requires x in s
    ensures multiset(s) == multiset{x} + multiset(Without(s, x))
  {
    assert s == [s[0]] + s[1..];
    if s[0] != x {
      WithoutSplits(s[1..], x);
      assert multiset(Without(s, x)) == multiset{s[0]} + multiset(Without(s[1..], x));
    }
  }

  lemma {:induction false} SameReceiversSameData(a: seq<Receiver>, b: seq<Receiver>)
    requires multiset(a) == multiset(b)
    ensures multiset(Data(a)) == multiset(Data(b))
    decreases |a|
  {
    if a == [] {
      assert |multiset(b)| == |b|;
    } else {
      var x := a[0];
      assert x in multiset(a) && x in b;
      assert a == [x] + a[1..];
      WithoutSplits(b, x);
      assert multiset(a) - multiset{x} == multiset(a[1..]);
      assert multiset(b) - multiset{x} == multiset(Without(b, x));
      SameReceiversSameData(a[1..], Without(b, x));
      DataWithout(b, x);
      assert Data(a) == [x.data] + Data(a[1..]);
    }
  }

  /** On a well-formed identifier the lists call exactly the documented subscribers, each as often as subscribed. */
  lemma DispatchAsDocumented(d: Lists, fs: seq<Filter>, rid: Word)
    requires Indexes(d, EntriesOf(fs))
    requires forall f :: f in fs ==> IsWord(f.mask) && Satisfiable(f.canId, f.mask)
    requires IsWord(rid) && (ERR_BIT in rid || WellFormed(rid))
    ensures multiset(Data(Delivered(d, rid))) == multiset(Subscribers(fs, rid))
  {
    DeliveredIsScan(d, EntriesOf(fs), rid);
    ScanAsDocumented(fs, rid);
    SameReceiversSameData(Delivered(d, rid), Scan(EntriesOf(fs), rid));
  }
}
