/** How the MCP251x driver packs frames into controller registers and reads them back. */
module Mcp251xFrame {
  import opened Words

  const MAX_DATA: nat := 8
  const BUF_LEN: nat := 14
  const REGISTERS: nat := 128

  // Bits of the buffer registers.
  const EXIDE: nat := 3    // TXBnSIDL: extended identifier
  const IDE: nat := 3      // RXBnSIDL: extended identifier
  const SRR: nat := 4      // RXBnSIDL: standard remote frame
  const DLC_RTR: nat := 6  // TXBnDLC, RXBnDLC: remote frame

  // Offsets in a transfer buffer, and from TXBnCTRL or RXBnCTRL.
  const SIDH_OFF: nat := 1
  const SIDL_OFF: nat := 2
  const EID8_OFF: nat := 3
  const EID0_OFF: nat := 4
  const DLC_OFF: nat := 5
  const DAT_OFF: nat := 6

  datatype Frame = Frame(canId: Word, dlc: nat, data: seq<Word>)

  ghost predicate Classic(f: Frame) {
    f.canId <= Bits(0, 32) && f.dlc <= MAX_DATA == |f.data|
  }

  // ---------- identifier bytes ----------

  function Byte(w: Word): Word { w * Bits(0, 8) }

  predicate Extended(id: Word) { EFF_BIT in id }

  predicate Remote(id: Word) { RTR_BIT in id }

  function StandardPart(id: Word): Word {
    if Extended(id) then Shr(id * EffMask(), 18) else id * SffMask()
  }

  function Sidh(id: Word): Word { Byte(Shr(StandardPart(id), 3)) }

  function Sidl(id: Word): Word {
    Byte(Shl(StandardPart(id) * Bits(0, 3), 5) + (if Extended(id) then {EXIDE} else {}) +
         Shr(id * EffMask(), 16) * Bits(0, 2))
  }

  function Eid8(id: Word): Word { Byte(Shr(id * EffMask(), 8)) }

  function Eid0(id: Word): Word { Byte(id * EffMask()) }

  function TxDlc(id: Word, dlc: nat): Word
    requires dlc <= MAX_DATA
  {
    (if Remote(id) then {DLC_RTR} else {}) + Nibble(dlc)
  }

  function ExtendedPart(sidh: Word, sidl: Word, eid8: Word, eid0: Word): Word {
    Shl(sidl * Bits(0, 2), 16) + Shl(eid8, 8) + eid0 + Shl(Shl(sidh, 3) + Shr(sidl, 5), 18)
  }

  function DecodeId(sidh: Word, sidl: Word, eid8: Word, eid0: Word, dlc: Word): Word {
    if IDE in sidl then
      {EFF_BIT} + ExtendedPart(sidh, sidl, eid8, eid0) + (if DLC_RTR in dlc then {RTR_BIT} else {})
    else
      Shl(sidh, 3) + Shr(sidl, 5) + (if SRR in sidl then {RTR_BIT} else {})
  }

  /** get_can_dlc of the length bits. */
  function DecodeDlc(dlc: Word): (r: nat)
    ensures r <= MAX_DATA
  {
    var n := LowNibble(dlc);
    if n > MAX_DATA then MAX_DATA else n
  }

  // ---------- the controller between a transmit and a receive buffer ----------

  // What the controller leaves open: the substitute-remote bit of an extended frame,
  // and the extended bytes and the length register's RTR bit of a standard one.
  datatype OpenBits = OpenBits(srr: bool, rtr: bool, eid8: Word, eid0: Word)

  /** RXBnSIDL for what TXBnSIDL and TXBnDLC sent: a standard remote frame shows in the SRR bit. */
  function ReceivedSidl(sidl: Word, dlc: Word, open: OpenBits): Word {
    if EXIDE in sidl then sidl - {SRR} + (if open.srr then {SRR} else {})
    else sidl * Bits(5, 8) + (if DLC_RTR in dlc then {SRR} else {})
  }

  function ReceivedDlc(sidl: Word, dlc: Word, open: OpenBits): Word {
    if EXIDE in sidl then dlc
    else dlc - {DLC_RTR} + (if open.rtr then {DLC_RTR} else {})
  }

  /** The bits a frame keeps on the wire: 29 identifier bits with EFF, else 11, and the RTR flag. */
  function WireBits(id: Word): Word {
    if Extended(id) then {EFF_BIT, RTR_BIT} + EffMask() else {RTR_BIT} + SffMask()
  }

  function Canonical(id: Word): Word { id * WireBits(id) }

  /** No error flag, and a standard identifier has only 11 bits. */
  predicate WellFormed(id: Word) { id <= WireBits(id) }

  lemma ExtendedPartBit(sidh: Word, sidl: Word, eid8: Word, eid0: Word, i: nat)
    ensures i in ExtendedPart(sidh, sidl, eid8, eid0) <==>
      || (16 <= i < 18 && i - 16 in sidl) || (8 <= i < 32 && i - 8 in eid8) || i in eid0
      || (21 <= i < 32 && i - 21 in sidh) || (18 <= i < 32 && i - 13 in sidl)
  {
  }

  lemma ByteBits(id: Word, i: nat)
    requires Extended(id)
    ensures i in Sidh(id) <==> i < 8 && i + 21 in id
    ensures i in Eid8(id) <==> i < 8 && i + 8 in id
    ensures i in Eid0(id) <==> i < 8 && i in id
  {
  }

  /** The bytes of an extended identifier; sidl need only agree on its identifier bits. */
  lemma ExtendedPartRoundTrip(id: Word, sidl: Word)
    requires Extended(id) && sidl <= Bits(0, 8)
    requires forall i: nat :: i < 2 || 5 <= i ==> (i in sidl <==> i in Sidl(id))
    ensures ExtendedPart(Sidh(id), sidl, Eid8(id), Eid0(id)) == id * EffMask()
  {
    SidlBits(id);
    forall i: nat
      ensures i in ExtendedPart(Sidh(id), sidl, Eid8(id), Eid0(id)) <==> i in id * EffMask()
    {
      ExtendedPartBit(Sidh(id), sidl, Eid8(id), Eid0(id), i);
      if i < 8 {
        ByteBits(id, i);
      } else if i < 16 {
        ByteBits(id, i - 8);
        ByteBits(id, i);
      } else {
        if i < 18 { assert i - 16 in sidl <==> i - 16 in Sidl(id); }
        if 18 <= i { assert i - 13 in sidl <==> i - 13 in Sidl(id); }
        if 21 <= i { ByteBits(id, i - 21); }
        ByteBits(id, i - 8);
        ByteBits(id, i);
      }
    }
  }

  lemma SidlBit(id: Word, i: nat)
    ensures i in Sidl(id) <==>
      || (5 <= i < 8 && i - 5 in StandardPart(id))
      || (i == EXIDE && Extended(id))
      || (i < 2 && i + 16 in id)
  {
  }

  /** The fields of TXBnSIDL do not overlap. */
  lemma SidlBits(id: Word)
    ensures Sidl(id) <= Bits(0, 8)
    ensures EXIDE in Sidl(id) <==> Extended(id)
    ensures forall i: nat :: i in Sidl(id) && i < 2 <==> i < 2 && i + 16 in id
    ensures forall i: nat :: i in Sidl(id) && 5 <= i <==> 5 <= i < 8 && i - 5 in StandardPart(id)
  {
    forall i: nat
      ensures i in Sidl(id) <==>
        (5 <= i < 8 && i - 5 in StandardPart(id)) || (i == EXIDE && Extended(id)) || (i < 2 && i + 16 in id)
    {
      SidlBit(id, i);
    }
  }

  lemma StandardPartRoundTrip(id: Word, sidl: Word)
    requires !Extended(id) && sidl - {SRR} == Sidl(id) * Bits(5, 8)
    ensures Shl(Sidh(id), 3) + Shr(sidl, 5) == id * SffMask()
  {
    SidlBits(id);
    forall i: nat ensures i in Shl(Sidh(id), 3) + Shr(sidl, 5) <==> i in id * SffMask() {
      assert i + 5 in sidl <==> i + 5 in sidl - {SRR};
    }
  }

  /** Sending an identifier and receiving it gives its canonical form, whatever the open bits are. */
  lemma IdentifierRoundTrip(id: Word, dlc: nat, open: OpenBits)
    requires dlc <= MAX_DATA
    ensures var sidl, tx := Sidl(id), TxDlc(id, dlc);
      DecodeId(Sidh(id), ReceivedSidl(sidl, tx, open),
               if Extended(id) then Eid8(id) else open.eid8, if Extended(id) then Eid0(id) else open.eid0,
               ReceivedDlc(sidl, tx, open)) == Canonical(id)
  {
    NibbleValue(dlc);
    var tx := TxDlc(id, dlc);
    assert DLC_RTR in tx <==> Remote(id);
    if Extended(id) { ExtendedIdentifier(id, tx, open); } else { StandardIdentifier(id, tx, open); }
  }

  lemma ExtendedIdentifier(id: Word, tx: Word, open: OpenBits)
    requires Extended(id) && (DLC_RTR in tx <==> Remote(id))
    ensures DecodeId(Sidh(id), ReceivedSidl(Sidl(id), tx, open), Eid8(id), Eid0(id),
                     ReceivedDlc(Sidl(id), tx, open)) == Canonical(id)
  {
    SidlBits(id);
    ExtendedPartRoundTrip(id, ReceivedSidl(Sidl(id), tx, open));
    CanonicalParts(id);
  }

  lemma StandardIdentifier(id: Word, tx: Word, open: OpenBits)
    requires !Extended(id) && (DLC_RTR in tx <==> Remote(id))
    ensures forall eid8, eid0 ::
      DecodeId(Sidh(id), ReceivedSidl(Sidl(id), tx, open), eid8, eid0,
               ReceivedDlc(Sidl(id), tx, open)) == Canonical(id)
  {
    SidlBits(id);
    StandardPartRoundTrip(id, ReceivedSidl(Sidl(id), tx, open));
    CanonicalParts(id);
  }

  lemma CanonicalParts(id: Word)
    ensures WellFormed(id) <==> Canonical(id) == id
    ensures Canonical(id) == (if Extended(id) then {EFF_BIT} + id * EffMask() else id * SffMask()) +
                             (if Remote(id) then {RTR_BIT} else {})
  {
  }

  lemma LengthRoundTrip(id: Word, dlc: nat, open: OpenBits)
    requires dlc <= MAX_DATA
    ensures DecodeDlc(ReceivedDlc(Sidl(id), TxDlc(id, dlc), open)) == dlc
  {
    NibbleValue(dlc);
    var tx, rx := TxDlc(id, dlc), ReceivedDlc(Sidl(id), TxDlc(id, dlc), open);
    assert forall i :: 0 <= i < 4 ==> (i in rx <==> i in Nibble(dlc));
  }
}
