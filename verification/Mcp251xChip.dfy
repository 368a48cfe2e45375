/** The register file of an MCP251x and the driver's two ways to move a frame in and out of it. */
module Mcp251xChip {
  import opened Words
  import opened Mcp251xFrame

  function TxBase(n: nat): nat { 0x30 + 0x10 * n }

  function RxBase(n: nat): nat { 0x60 + 0x10 * n }

  /** The bytes of a frame from SIDH on. */
  function TxBytes(f: Frame): seq<Word>
    requires f.dlc <= MAX_DATA && f.dlc <= |f.data|
  {
    Header(f.canId, f.dlc) + f.data[..f.dlc]
  }

  function Header(id: Word, dlc: nat): (r: seq<Word>)
    requires dlc <= MAX_DATA
    ensures |r| == 5
  {
    [Sidh(id), Sidl(id), Eid8(id), Eid0(id), TxDlc(id, dlc)]
  }

  function Loaded(regs: seq<Word>, start: nat, bytes: seq<Word>): (r: seq<Word>)
    requires start + |bytes| <= |regs|
    ensures |r| == |regs|
  {
    regs[..start] + bytes + regs[start + |bytes|..]
  }

  /** The frame in the register bytes from SIDH on. */
  function FrameOf(bytes: seq<Word>): Frame
    requires |bytes| >= 5 + MAX_DATA
  {
    var dlc := DecodeDlc(bytes[4]);
    Frame(DecodeId(bytes[0], bytes[1], bytes[2], bytes[3], bytes[4]), dlc,
          bytes[5..5 + dlc] + seq(MAX_DATA - dlc, _ => {}))
  }

  /** The registers of a buffer from SIDH on. */
  function Window(regs: seq<Word>, base: nat): (r: seq<Word>)
    requires base + BUF_LEN <= |regs|
    ensures |r| == BUF_LEN - 1
  {
    regs[base + 1..base + BUF_LEN]
  }

  /** What the controller puts into a receive window for the frame in a transmit window. */
  ghost predicate OnWire(tx: seq<Word>, rx: seq<Word>, open: OpenBits)
    requires |tx| == |rx| == BUF_LEN - 1
  {
    var ext := EXIDE in tx[1];
    && rx[0] == tx[0]
    && rx[1] == ReceivedSidl(tx[1], tx[4], open)
    && rx[2] == (if ext then tx[2] else open.eid8)
    && rx[3] == (if ext then tx[3] else open.eid0)
    && rx[4] == ReceivedDlc(tx[1], tx[4], open)
    && forall j :: 5 <= j < 5 + DecodeDlc(tx[4]) ==> rx[j] == tx[j]
  }

  lemma HeaderRoundTrip(id: Word, dlc: nat, tx: seq<Word>, rx: seq<Word>, open: OpenBits)
    requires dlc <= MAX_DATA && |tx| == |rx| == BUF_LEN - 1
    requires tx[..5] == Header(id, dlc) && OnWire(tx, rx, open)
    ensures DecodeId(rx[0], rx[1], rx[2], rx[3], rx[4]) == Canonical(id)
    ensures DecodeDlc(rx[4]) == DecodeDlc(tx[4]) == dlc
  {
    var h := Header(id, dlc);
    assert tx[0] == h[0] && tx[1] == h[1] && tx[2] == h[2] && tx[3] == h[3] && tx[4] == h[4];
    SidlBits(id);
    SentLength(id, dlc);
    IdentifierRoundTrip(id, dlc, open);
    LengthRoundTrip(id, dlc, open);
    if !Extended(id) { StandardIdentifier(id, tx[4], open); }
  }

  /**
   Round trip of frames. A frame written into a transmit buffer, put on the wire and read
   from a receive buffer comes back with its canonical identifier and flags, its length
   and its data; a well-formed identifier is its own canonical form.
   */
  lemma FrameRoundTrip(f: Frame, tx: seq<Word>, rx: seq<Word>, open: OpenBits)
    requires Classic(f) && |tx| == |rx| == BUF_LEN - 1 && TxBytes(f) <= tx && OnWire(tx, rx, open)
    ensures var r := FrameOf(rx);
      && r.canId == Canonical(f.canId) && r.dlc == f.dlc && r.data[..f.dlc] == f.data[..f.dlc]
      && (WellFormed(f.canId) ==> r.canId == f.canId)
      && forall j :: f.dlc <= j < MAX_DATA ==> r.data[j] == {}
  {
    CanonicalParts(f.canId);
    BytesInWindow(f, tx);
    HeaderRoundTrip(f.canId, f.dlc, tx, rx, open);
    DataOnWire(tx, rx, open);
    DataOfWindow(rx, f.dlc, f.data);
  }

  lemma DataOnWire(tx: seq<Word>, rx: seq<Word>, open: OpenBits)
    requires |tx| == |rx| == BUF_LEN - 1 && OnWire(tx, rx, open)
    ensures rx[5..5 + DecodeDlc(tx[4])] == tx[5..5 + DecodeDlc(tx[4])]
  {
  }

  lemma TwoPieces(buf: seq<Word>, dlc: nat)
    requires DAT_OFF + dlc <= |buf|
    ensures buf[1..DAT_OFF + dlc] == buf[1..6] + buf[DAT_OFF..DAT_OFF + dlc]
  {
  }

  lemma BytesInWindow(f: Frame, tx: seq<Word>)
    requires Classic(f) && |tx| == BUF_LEN - 1 && TxBytes(f) <= tx
    ensures tx[..5] == Header(f.canId, f.dlc) && tx[5..5 + f.dlc] == f.data[..f.dlc]
  {
  }

  lemma DataOfWindow(rx: seq<Word>, dlc: nat, data: seq<Word>)
    requires |rx| == BUF_LEN - 1 && dlc == DecodeDlc(rx[4]) <= |data| && rx[5..5 + dlc] == data[..dlc]
    ensures FrameOf(rx).dlc == dlc && FrameOf(rx).data[..dlc] == data[..dlc]
    ensures forall j :: dlc <= j < MAX_DATA ==> FrameOf(rx).data[j] == {}
  {
  }

  lemma LoadedWindow(regs: seq<Word>, base: nat, bytes: seq<Word>)
    requires base + BUF_LEN <= |regs| && |bytes| < BUF_LEN
    ensures bytes <= Window(Loaded(regs, base + 1, bytes), base)
  {
  }

  lemma SentLength(id: Word, dlc: nat)
    requires dlc <= MAX_DATA
    ensures DecodeDlc(TxDlc(id, dlc)) == dlc
  {
    NibbleValue(dlc);
    assert forall i :: 0 <= i < 4 ==> (i in TxDlc(id, dlc) <==> i in Nibble(dlc));
  }

  class Chip {
    const is2510: bool
    const regs: array<Word>

    ghost predicate Valid() { regs.Length == REGISTERS }

    constructor (is2510: bool)
      ensures Valid() && fresh(regs)
    {
      this.is2510 := is2510;
      regs := new Word[REGISTERS](_ => {});
    }

    method WriteReg(reg: nat, val: Word)
      requires Valid() && reg < REGISTERS
      modifies regs
      ensures regs[..] == old(regs[..])[reg := val]
    {
      regs[reg] := val;
    }

    method ReadReg(reg: nat) returns (val: Word)
      requires Valid() && reg < REGISTERS
      ensures val == regs[reg]
    {
      val := regs[reg];
    }

    /** A burst transfer that writes len bytes of buf, from index 1 on, to consecutive registers. */
    method WriteBurst(start: nat, buf: array<Word>, len: nat)
      requires Valid() && buf != regs && 1 + len <= buf.Length && start + len <= REGISTERS
      modifies regs
      ensures regs[..] == Loaded(old(regs[..]), start, buf[1..1 + len])
    {
      forall i | 0 <= i < len { regs[start + i] := buf[1 + i]; }
    }

    /** Register by register on a 2510, in one burst on a 2515: the same registers either way. */
    method HwTxFrame(buf: array<Word>, len: nat, n: nat)
      requires Valid() && buf != regs && buf.Length == BUF_LEN && len <= MAX_DATA && n < 3
      modifies regs
      ensures regs[..] == Loaded(old(regs[..]), TxBase(n) + 1, buf[1..DAT_OFF + len])
    {
      if is2510 {
        var i := 1;
        while i < DAT_OFF + len
          invariant 1 <= i <= DAT_OFF + len
          invariant regs[..] == Loaded(old(regs[..]), TxBase(n) + 1, buf[1..i])
        {
          WriteReg(TxBase(n) + i, buf[i]);
          assert buf[1..i + 1] == buf[1..i] + [buf[i]];
          i := i + 1;
        }
      } else {
        WriteBurst(TxBase(n) + 1, buf, DAT_OFF + len - 1);
      }
    }

    method EncodeFrame(f: Frame, buf: array<Word>)
      requires Classic(f) && buf.Length == BUF_LEN
      modifies buf
      ensures buf[1..DAT_OFF + f.dlc] == TxBytes(f)
    {
      EncodeHeader(f, buf);
      EncodeData(f, buf);
      TwoPieces(buf[..], f.dlc);
    }

    method EncodeData(f: Frame, buf: array<Word>)
      requires Classic(f) && buf.Length == BUF_LEN
      modifies buf
      ensures buf[1..6] == old(buf[1..6]) && buf[DAT_OFF..DAT_OFF + f.dlc] == f.data[..f.dlc]
    {
      forall i | 0 <= i < f.dlc { buf[DAT_OFF + i] := f.data[i]; }
    }

    method EncodeHeader(f: Frame, buf: array<Word>)
      requires Classic(f) && buf.Length == BUF_LEN
      modifies buf
      ensures buf[1..6] == Header(f.canId, f.dlc)
    {
      buf[SIDH_OFF] := Sidh(f.canId);
      buf[SIDL_OFF] := Sidl(f.canId);
      buf[EID8_OFF] := Eid8(f.canId);
      buf[EID0_OFF] := Eid0(f.canId);
      buf[DLC_OFF] := TxDlc(f.canId, f.dlc);
    }

    method HwTx(f: Frame, n: nat)
      requires Valid() && Classic(f) && n < 3
      modifies regs
      ensures regs[..] == Loaded(old(regs[..]), TxBase(n) + 1, TxBytes(f))
      ensures TxBytes(f) <= Window(regs[..], TxBase(n))
    {
      LoadedWindow(regs[..], TxBase(n), TxBytes(f));
      var buf := new Word[BUF_LEN](_ => {});
      EncodeFrame(f, buf);
      HwTxFrame(buf, f.dlc, n);
    }

    method ReadRegs(buf: array<Word>, base: nat, lo: nat, hi: nat)
      requires Valid() && buf != regs && buf.Length == BUF_LEN && lo <= hi <= BUF_LEN
      requires base + BUF_LEN <= REGISTERS
      modifies buf
      ensures forall i :: 0 <= i < BUF_LEN ==> buf[i] == if lo <= i < hi then regs[base + i] else old(buf[i])
    {
      var i := lo;
      while i < hi
        invariant lo <= i <= hi
        invariant forall j :: 0 <= j < BUF_LEN ==> buf[j] == if lo <= j < i then regs[base + j] else old(buf[j])
      {
        buf[i] := ReadReg(base + i);
        i := i + 1;
      }
    }

    /** A 2510 is read only as far as the length says; the rest of the buffer keeps its content. */
    method HwRxFrame(buf: array<Word>, n: nat)
      requires Valid() && buf != regs && buf.Length == BUF_LEN && n < 2
      modifies buf
      ensures var w := Window(regs[..], RxBase(n));
        forall i :: 1 <= i < DAT_OFF + DecodeDlc(w[4]) ==> buf[i] == w[i - 1]
    {
      if is2510 {
        ReadRegs(buf, RxBase(n), 1, DAT_OFF);
        var len := DecodeDlc(buf[DLC_OFF]);
        ReadRegs(buf, RxBase(n), DAT_OFF, DAT_OFF + len);
      } else {
        ReadRegs(buf, RxBase(n), 1, BUF_LEN);
      }
    }

    method HwRx(n: nat) returns (f: Frame)
      requires Valid() && n < 2
      ensures f == FrameOf(Window(regs[..], RxBase(n)))
    {
      var buf := new Word[BUF_LEN](_ => {});
      HwRxFrame(buf, n);
      var dlc := DecodeDlc(buf[DLC_OFF]);
      f := Frame(DecodeId(buf[SIDH_OFF], buf[SIDL_OFF], buf[EID8_OFF], buf[EID0_OFF], buf[DLC_OFF]), dlc,
                 buf[DAT_OFF..DAT_OFF + dlc] + seq(MAX_DATA - dlc, _ => {}));
      ghost var w := Window(regs[..], RxBase(n));
      assert forall i :: DAT_OFF <= i < DAT_OFF + dlc ==> buf[i] == w[i - 1];
    }
  }
}
