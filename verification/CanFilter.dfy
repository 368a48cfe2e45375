/**
 Receive filters of the CAN core: how a filter is normalised and put into one of the
 receive lists of a device, and when a filter matches a received identifier.
 */
module CanFilter {
  import opened Words

  // The lists of a device; a standard identifier selects its own list among 2048.
  datatype Slot = RxErr | RxAll | RxFil | RxInv | RxEff | RxSff(id: Word)

  // data stands for the callback and its argument, which are compared together.
  datatype Receiver = Receiver(canId: Word, mask: Word, data: nat)

  datatype Entry = Entry(slot: Slot, r: Receiver)

  function FlagBits(): Word { {EFF_BIT, RTR_BIT} }

  /** find_rcv_list: the list for a filter, with its reduced identifier and mask. */
  function Normalise(canId: Word, mask: Word, data: nat): Entry {
    if ERR_BIT in mask then Entry(RxErr, Receiver(canId, mask * EffMask(), data))
    else
      var m := if EFF_BIT in mask && EFF_BIT !in canId then mask * (SffMask() + FlagBits()) else mask;
      var id := canId * m;
      Entry(ListFor(id, m, ERR_BIT in canId), Receiver(id, m, data))
  }

  function ListFor(id: Word, m: Word, inv: bool): Slot {
    if inv then RxInv
    else if m == {} then RxAll
    else if FlagBits() <= m && RTR_BIT !in id then
      if EFF_BIT in id then
        if m == EffMask() + FlagBits() then RxEff else RxFil
      else
        if m == SffMask() + FlagBits() then RxSff(id) else RxFil
    else RxFil
  }

  /** The normalised filter's own condition, whatever list it is in. */
  predicate Matches(e: Entry, rid: Word) {
    match e.slot
    case RxErr => ERR_BIT in rid && rid * e.r.mask != {}
    case RxInv => ERR_BIT !in rid && rid * e.r.mask != e.r.canId
    case _ => ERR_BIT !in rid && rid * e.r.mask == e.r.canId
  }

  /** The test the receive path makes for an entry of a list it walks; some lists need none. */
  predicate Passes(slot: Slot, r: Receiver, rid: Word) {
    match slot
    case RxErr => rid * r.mask != {}
    case RxAll => true
    case RxFil => rid * r.mask == r.canId
    case RxInv => rid * r.mask != r.canId
    case RxEff => r.canId == rid
    case RxSff(_) => true
  }

  /** Whether the receive path walks a list for an identifier. */
  predicate Walked(slot: Slot, rid: Word) {
    match slot
    case RxErr => ERR_BIT in rid
    case RxEff => ERR_BIT !in rid && RTR_BIT !in rid && EFF_BIT in rid
    case RxSff(id) => ERR_BIT !in rid && RTR_BIT !in rid && EFF_BIT !in rid && id == rid * SffMask()
    case _ => ERR_BIT !in rid
  }

  /** An entry sits in the list its filter normalises to. */
  ghost predicate Placed(e: Entry) {
    exists canId, mask :: e == Normalise(canId, mask, e.r.data)
  }

  predicate IsWord(w: Word) { w <= Bits(0, 32) }

  /** Walking one list with its cheap test selects the same entries as the full condition. */
  lemma ListTestIsExact(e: Entry, rid: Word)
    requires Placed(e) && IsWord(rid)
    ensures Walked(e.slot, rid) && Passes(e.slot, e.r, rid) <==> Matches(e, rid)
  {
    var canId, mask :| e == Normalise(canId, mask, e.r.data);
    match e.slot
    case RxErr =>
    case RxAll => assert rid * {} == {};
    case RxFil =>
    case RxInv =>
    case RxEff =>
      assert ERR_BIT !in rid ==> rid * e.r.mask == rid;
      assert rid * e.r.mask == e.r.canId ==> RTR_BIT !in rid && EFF_BIT in rid by {
        assert RTR_BIT in e.r.mask && EFF_BIT in e.r.mask;
      }
    case RxSff(id) =>
      assert rid * e.r.mask == rid * SffMask() + rid * FlagBits();
      assert RTR_BIT in rid || EFF_BIT in rid ==> rid * FlagBits() != {};
      assert RTR_BIT !in id && EFF_BIT !in id;
      assert RTR_BIT in rid ==> RTR_BIT in rid * e.r.mask;
      assert EFF_BIT in rid ==> EFF_BIT in rid * e.r.mask;
      assert RTR_BIT !in rid && EFF_BIT !in rid ==> rid * FlagBits() == {};
  }

  // ---------- the documented meaning of a filter ----------

  /** The filter condition as the interface documents it, on the filter as the user gave it. */
  predicate Documented(canId: Word, mask: Word, rid: Word) {
    if ERR_BIT in mask then ERR_BIT in rid && exists bit :: bit in rid && bit in mask && bit < 29
    else ERR_BIT !in rid && ((rid * mask == canId * mask) != (ERR_BIT in canId))
  }

  /** A data or remote frame's identifier: no error flag, and 11 bits unless extended. */
  predicate WellFormed(id: Word) {
    && IsWord(id) && ERR_BIT !in id
    && (EFF_BIT in id || id * Bits(11, 29) == {})
  }

  /** A filter for standard frames only does not ask for bits a standard identifier lacks. */
  predicate Satisfiable(canId: Word, mask: Word) {
    ERR_BIT in mask || EFF_BIT !in mask || EFF_BIT in canId || canId * mask * Bits(11, 29) == {}
  }

  lemma ErrorFilterAsDocumented(canId: Word, mask: Word, data: nat, rid: Word)
    requires ERR_BIT in mask
    ensures Matches(Normalise(canId, mask, data), rid) <==> Documented(canId, mask, rid)
  {
    assert forall bit :: bit in rid * (mask * EffMask()) <==> bit in rid && bit in mask && bit < 29;
  }

  lemma NotUpper(w: Word, i: nat)
    requires w * Bits(11, 29) == {} && i in w
    ensures i < 11 || 29 <= i
  {
    assert i !in Bits(11, 29);
  }

  /** The mask find_rcv_list compares with. */
  function UsedMask(canId: Word, mask: Word): Word {
    if EFF_BIT in mask && EFF_BIT !in canId then mask * (SffMask() + FlagBits()) else mask
  }

  lemma MatchesByMask(canId: Word, mask: Word, data: nat, rid: Word)
    requires ERR_BIT !in mask
    ensures var m := UsedMask(canId, mask);
      Matches(Normalise(canId, mask, data), rid) <==>
        ERR_BIT !in rid && ((rid * m == canId * m) != (ERR_BIT in canId))
  {
  }

  lemma StandardOnly(canId: Word, mask: Word, rid: Word)
    requires EFF_BIT in mask && EFF_BIT !in canId && ERR_BIT !in mask && WellFormed(rid)
    requires canId * mask * Bits(11, 29) == {} && IsWord(mask)
    ensures var m := UsedMask(canId, mask); rid * mask == canId * mask <==> rid * m == canId * m
  {
    var m := UsedMask(canId, mask);
    assert canId * mask == canId * m by {
      forall i: nat ensures i in canId * mask <==> i in canId * m {
        if i in canId * mask { NotUpper(canId * mask, i); }
      }
    }
    if rid * mask == canId * mask {
      assert rid * m == (rid * mask) * (SffMask() + FlagBits());
      assert canId * m == (canId * mask) * (SffMask() + FlagBits());
    } else if rid * m == canId * m {
      assert EFF_BIT !in rid by { assert EFF_BIT in rid ==> EFF_BIT in rid * m; }
      forall i: nat ensures i in rid * mask <==> i in canId * mask {
        assert i in rid * m <==> i in canId * m;
        if i in rid { NotUpper(rid, i); }
      }
    }
  }

  lemma Unsatisfied(canId: Word, mask: Word)
    requires IsWord(canId) && IsWord(mask) && !Satisfiable(canId, mask)
    ensures var m := UsedMask(canId, mask);
      var rid := canId * m;
      WellFormed(rid) && rid * m == canId * m && rid * mask != canId * mask
  {
    var m := UsedMask(canId, mask);
    var rid := canId * m;
    var i :| i in canId * mask * Bits(11, 29);
    assert i in canId * mask && i !in rid * mask;
    assert rid * m == rid;
    assert rid * Bits(11, 29) == {};
  }

  /**
   On well-formed identifiers the normalised filter means what is documented, exactly
   unless a filter for standard frames only also compares bits beyond the eleventh.
   */
  lemma NormaliseAsDocumented(canId: Word, mask: Word, data: nat)
    requires IsWord(canId) && IsWord(mask)
    ensures (forall rid :: WellFormed(rid) ==>
              (Matches(Normalise(canId, mask, data), rid) <==> Documented(canId, mask, rid)))
      <==> Satisfiable(canId, mask)
  {
    var e := Normalise(canId, mask, data);
    if Satisfiable(canId, mask) {
      forall rid | WellFormed(rid) ensures Matches(e, rid) <==> Documented(canId, mask, rid) {
        SatisfiableMatches(canId, mask, data, rid);
      }
    } else {
      var rid := canId * UsedMask(canId, mask);
      Unsatisfied(canId, mask);
      MatchesByMask(canId, mask, data, rid);
      assert WellFormed(rid) && Matches(e, rid) != Documented(canId, mask, rid);
    }
  }

  lemma SatisfiableMatches(canId: Word, mask: Word, data: nat, rid: Word)
    requires IsWord(mask) && Satisfiable(canId, mask) && WellFormed(rid)
    ensures Matches(Normalise(canId, mask, data), rid) <==> Documented(canId, mask, rid)
  {
    if ERR_BIT in mask {
      ErrorFilterAsDocumented(canId, mask, data, rid);
    } else {
      MatchesByMask(canId, mask, data, rid);
      if EFF_BIT in mask && EFF_BIT !in canId { StandardOnly(canId, mask, rid); }
    }
  }

  /** REGMASK: the mask that subscribes to a single identifier. */
  function RegMask(id: Word): Word {
    (if EFF_BIT in id then EffMask() else SffMask()) + FlagBits()
  }

  /** Such a subscription selects exactly its identifier if that is well-formed, and only then. */
  lemma RegMaskSelectsOne(id: Word, data: nat)
    requires IsWord(id)
    ensures (forall rid :: WellFormed(rid) ==> (Matches(Normalise(id, RegMask(id), data), rid) <==> rid == id))
      <==> WellFormed(id)
  {
    var e := Normalise(id, RegMask(id), data);
    if WellFormed(id) {
      forall rid | WellFormed(rid) ensures Matches(e, rid) <==> rid == id {
        RegMaskUsed(id);
        MatchesByMask(id, RegMask(id), data, rid);
        RegMaskCompares(id, rid);
      }
    } else {
      var rid := RegMaskSelectsOther(id, data);
      assert WellFormed(rid) && Matches(e, rid) && rid != id;
    }
  }

  lemma RegMaskUsed(id: Word)
    ensures UsedMask(id, RegMask(id)) == RegMask(id) && ERR_BIT !in RegMask(id)
  {
    if EFF_BIT !in id { assert RegMask(id) * (SffMask() + FlagBits()) == RegMask(id); }
  }

  /** The identifier cut down to its subscription's mask, or for an error bit one that differs there. */
  function OtherId(id: Word): Word {
    var low := id * RegMask(id);
    if ERR_BIT !in id then low else if low == {} then {0} else {}
  }

  lemma OtherIdCompares(id: Word)
    ensures OtherId(id) * RegMask(id) == id * RegMask(id) <==> ERR_BIT !in id
  {
    var m := RegMask(id);
    assert (id * m) * m == id * m && {0} * m == {0};
  }

  lemma StandardHasNoMore(w: Word)
    requires w <= SffMask() + FlagBits()
    ensures w * Bits(11, 29) == {} && ERR_BIT !in w
  {
    assert forall i: nat :: i in w ==> i < 11 || i == EFF_BIT || i == RTR_BIT;
  }

  lemma CutDownIsWellFormed(id: Word)
    requires IsWord(id)
    ensures WellFormed(id * RegMask(id))
  {
    var low := id * RegMask(id);
    if EFF_BIT in id {
      assert EFF_BIT in low && ERR_BIT !in low;
    } else {
      StandardHasNoMore(low);
    }
  }

  lemma OtherIdIsWellFormed(id: Word)
    requires IsWord(id)
    ensures WellFormed(OtherId(id))
  {
    if ERR_BIT !in id { CutDownIsWellFormed(id); } else { StandardHasNoMore(OtherId(id)); }
  }

  /** A malformed subscription selects another identifier: its error bit reads as "inverted". */
  lemma RegMaskSelectsOther(id: Word, data: nat) returns (rid: Word)
    requires IsWord(id) && !WellFormed(id)
    ensures WellFormed(rid) && Matches(Normalise(id, RegMask(id), data), rid) && rid != id
  {
    rid := OtherId(id);
    OtherIdIsWellFormed(id);
    OtherIdCompares(id);
    RegMaskUsed(id);
    MatchesByMask(id, RegMask(id), data, rid);
  }

  lemma RegMaskCompares(id: Word, rid: Word)
    requires WellFormed(id) && WellFormed(rid)
    ensures rid * RegMask(id) == id * RegMask(id) <==> rid == id
  {
    if rid * RegMask(id) == id * RegMask(id) {
      SameKind(id, rid);
      forall i ensures i in rid <==> i in id { SameBit(id, rid, i); }
    }
  }

  lemma SameKind(id: Word, rid: Word)
    requires rid * RegMask(id) == id * RegMask(id)
    ensures EFF_BIT in id <==> EFF_BIT in rid
  {
    var m := RegMask(id);
    assert EFF_BIT in m;
    assert EFF_BIT in rid * m <==> EFF_BIT in rid;
    assert EFF_BIT in id * m <==> EFF_BIT in id;
  }

  lemma SameBit(id: Word, rid: Word, i: nat)
    requires WellFormed(id) && WellFormed(rid) && (EFF_BIT in id <==> EFF_BIT in rid)
    requires rid * RegMask(id) == id * RegMask(id)
    ensures i in rid <==> i in id
  {
    BitInMask(id, id, i);
    BitInMask(id, rid, i);
    assert i in rid * RegMask(id) <==> i in id * RegMask(id);
  }

  /** A well-formed identifier of the same kind has only bits its subscription compares. */
  lemma BitInMask(id: Word, w: Word, i: nat)
    requires WellFormed(w) && (EFF_BIT in id <==> EFF_BIT in w)
    ensures i in w ==> i in RegMask(id)
  {
    if i in w && EFF_BIT !in w { NotUpper(w, i); }
  }
}
