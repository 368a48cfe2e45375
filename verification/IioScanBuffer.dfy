/** A buffer as it runs: the demux table and the bounce buffer are built and used in place. */
module IioScanBuffer {
  import opened Options
  import opened ScanLayout
  import opened IioDemux
  import opened IioDemuxData

  method FindNextBit(mask: Mask, from: nat) returns (j: nat)
    requires from <= |mask|
    ensures j == NextBit(mask, from)
  {
    j := from;
    while j < |mask| && !mask[j]
      invariant from <= j <= |mask| && NextBit(mask, j) == NextBit(mask, from)
      decreases |mask| - j
    {
      j := j + 1;
    }
  }

  method ComputeScanBytes(mask: Mask, w: seq<nat>, ts: bool) returns (bytes: nat)
    requires |mask| < |w| && Widths(w)
    ensures bytes == ScanBytes(mask, w, ts)
  {
    bytes := 0;
    var i := FindNextBit(mask, 0);
    EndSkips(mask, w, 0, i);
    while i < |mask|
      invariant i <= |mask| && (i < |mask| ==> mask[i]) && bytes == End(mask, w, i)
      decreases |mask| - i
    {
      bytes := PadTo(bytes, w[i]);
      bytes := bytes + w[i];
      var next := FindNextBit(mask, i + 1);
      EndSkips(mask, w, i + 1, next);
      i := next;
    }
    StampIsLast(mask, w, ts, |mask|);
    if ts {
      bytes := PadTo(bytes, w[|mask|]);
      bytes := bytes + w[|mask|];
    }
  }

  method RoundUp(loc: nat, length: nat) returns (r: nat)
    requires IsWidth(length)
    ensures r == PadTo(loc, length)
  {
    r := loc;
    if r % length != 0 { r := r + (length - r % length); }
  }

  /** Walk to the wanted channel; it is found because it is active. */
  method SkipTo(active: Mask, w: seq<nat>, from: nat, out: nat, inLoc: nat) returns (loc: nat)
    requires |active| <= |w| && Widths(w) && from <= out < |active| && active[out]
    ensures loc == Skip(active, w, NextBit(active, from), out, inLoc)
  {
    loc := inLoc;
    var ind := FindNextBit(active, from);
    while ind != out
      invariant ind <= out && Skip(active, w, ind, out, loc) == Skip(active, w, NextBit(active, from), out, inLoc)
      decreases out - ind
    {
      ind := FindNextBit(active, ind + 1);
      var length := w[ind];
      loc := RoundUp(loc + length, length);
    }
  }

  // What a buffer's table was built for.
  datatype Plan = Plan(active: Mask, mask: Mask, w: seq<nat>, ts: bool)

  ghost predicate Sane(p: Plan) {
    Subset(p.mask, p.active) && |p.mask| < |p.w| && Widths(p.w)
  }

  class ScanBuffer {
    var scanMask: Mask
    var timestamp: bool
    var table: seq<Move>
    var bounce: array<bv8>
    ghost var plan: Option<Plan>

    /** The table is the one planned, and the bounce buffer is one datum with zeroes between the channels. */
    ghost predicate Valid()
      reads this, bounce
    {
      match plan
      case None => table == []
      case Some(p) =>
        && Sane(p)
        && table == TableFor(p.active, p.mask, p.w, p.ts)
        && (p.active != p.mask ==>
             Padded(bounce[..], WithStamp(p.mask, p.ts), p.w) && bounce.Length == ScanBytes(p.mask, p.w, p.ts))
    }

    constructor (mask: Mask, ts: bool)
      ensures Valid() && scanMask == mask && timestamp == ts && plan == None
    {
      scanMask, timestamp, table, plan := mask, ts, [], None;
      bounce := new bv8[0];
    }

    /** iio_buffer_update_demux: no table if the masks are equal. */
    method UpdateDemux(active: Mask, w: seq<nat>)
      requires Subset(scanMask, active) && |scanMask| < |w| && Widths(w)
      modifies this`table, this`bounce, this`plan
      ensures Valid() && fresh(bounce) && plan == Some(Plan(active, scanMask, w, timestamp))
      ensures active != scanMask ==> bounce[..] == Zeros(ScanBytes(scanMask, w, timestamp))
    {
      table := [];
      bounce := new bv8[0];
      plan := Some(Plan(active, scanMask, w, timestamp));
      if active == scanMask { return; }
      var b := BuildTable(active, w);
      OutputLaidOut(active, scanMask, w, timestamp);
      ZerosArePadded(WithStamp(scanMask, timestamp), w);
      table := b.table;
      bounce := new bv8[b.outLoc](_ => 0);
      assert bounce[..] == Zeros(ScanBytes(scanMask, w, timestamp));
    }

    method BuildTable(active: Mask, w: seq<nat>) returns (b: Build)
      requires Subset(scanMask, active) && |scanMask| < |w| && Widths(w)
      ensures b == Table(active, scanMask, w, timestamp)
    {
      b := Build(0, 0, 0, []);
      var out := FindNextBit(scanMask, 0);
      ChannelsSkip(active, scanMask, w, 0, out);
      while out < |scanMask|
        invariant out <= |scanMask| && (out < |scanMask| ==> scanMask[out])
        invariant b == Channels(active, scanMask, w, out)
        decreases |scanMask| - out
      {
        var loc := SkipTo(active, w, b.next, out, b.inLoc);
        b := Append(b, out + 1, PadTo(loc, w[out]), PadTo(b.outLoc, w[out]), w[out]);
        var next := FindNextBit(scanMask, out + 1);
        ChannelsSkip(active, scanMask, w, out + 1, next);
        out := next;
      }
      if timestamp {
        var length := w[|scanMask|];
        b := Append(b, b.next, PadTo(b.inLoc, length), PadTo(b.outLoc, length), length);
      }
    }

    /** iio_demux, of any data the table does not read beyond. */
    method Demux(data: Bytes) returns (out: Bytes)
      requires Valid() && InBounds(table, bounce.Length, data)
      modifies bounce
      ensures Valid() && out == Demuxed(table, data, old(bounce[..]))
      ensures table != [] ==> bounce[..] == out
    {
      if table == [] { return data; }
      PlanKept(bounce[..], data);
      MoveAll(data);
      out := bounce[..];
    }

    method MoveAll(data: Bytes)
      requires InBounds(table, bounce.Length, data)
      modifies bounce
      ensures bounce[..] == CopyAll(table, |table|, data, old(bounce[..]))
    {
      for i := 0 to |table|
        invariant bounce[..] == CopyAll(table, i, data, old(bounce[..]))
      {
        MoveBytes(table[i], data);
      }
    }

    method MoveBytes(m: Move, data: Bytes)
      requires m.from + m.length <= |data| && m.to + m.length <= bounce.Length
      modifies bounce
      ensures bounce[..] == Copy(old(bounce[..]), data, m)
    {
      forall k | 0 <= k < m.length { bounce[m.to + k] := data[m.from + k]; }
    }

    /** The copies stay inside the channels' places. */
    lemma PlanKept(before: Bytes, data: Bytes)
      requires plan.Some? && Sane(plan.value) && plan.value.active != plan.value.mask
      requires table == TableFor(plan.value.active, plan.value.mask, plan.value.w, plan.value.ts)
      requires InBounds(table, |before|, data)
      requires Padded(before, WithStamp(plan.value.mask, plan.value.ts), plan.value.w)
      ensures Padded(CopyAll(table, |table|, data, before), WithStamp(plan.value.mask, plan.value.ts), plan.value.w)
    {
      var p := plan.value;
      TableWrites(p.active, p.mask, p.w, p.ts);
      CopyAllKeepsPadding(table, WithStamp(p.mask, p.ts), p.w, before, data);
    }

    /**
     iio_push_to_buffer: a scan of the active channels, with their values, comes out as the
     buffer's own scan, time after time.
     */
    method Push(data: Bytes, ghost value: seq<Bytes>, ghost stamped: bool) returns (out: Bytes)
      requires Valid() && plan.Some? && Fits(value, plan.value.w)
      requires var p := plan.value; ComesOutRight(p.active, p.mask, p.w, p.ts, stamped)
      requires var p := plan.value; Delivers(data, WithStamp(p.active, stamped), p.w, value)
      modifies bounce
      ensures Valid()
      ensures var p := plan.value; Delivers(out, WithStamp(p.mask, p.ts), p.w, value)
      ensures var p := plan.value; table != [] ==> out == Pack(WithStamp(p.mask, p.ts), p.w, value, |p.mask| + 1)
    {
      ghost var p := plan.value;
      EveryScanComesOut(p.active, p.mask, p.w, p.ts, stamped, value, data, bounce[..]);
      out := Demux(data);
    }
  }
}
