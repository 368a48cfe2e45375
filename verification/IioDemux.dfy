/**
 The demultiplexing table of a buffer: how a scan of the active channels is copied into a
 scan of the buffer's own channels, and when that equals scanning those channels alone.
 */
module IioDemux {
  import opened ScanLayout

  datatype Move = Move(from: nat, to: nat, length: nat)

  /** The table built so far: the last active channel used plus one, and the two locations. */
  datatype Build = Build(next: nat, inLoc: nat, outLoc: nat, table: seq<Move>)

  /** Walk from one active channel to another, adding the width of each channel landed on. */
  function Skip(active: Mask, w: seq<nat>, ind: nat, out: nat, loc: nat): nat
    requires |active| <= |w| && Widths(w) && ind <= out < |active| && active[out]
    decreases out - ind
  {
    if ind == out then loc
    else
      var land := NextBit(active, ind + 1);
      Skip(active, w, land, out, PadTo(loc + w[land], w[land]))
  }

  /** Where the copy of channel out is taken from. */
  function From(active: Mask, w: seq<nat>, b: Build, out: nat): nat
    requires |active| <= |w| && Widths(w) && b.next <= out < |active| && active[out]
  {
    PadTo(Skip(active, w, NextBit(active, b.next), out, b.inLoc), w[out])
  }

  function Append(b: Build, next: nat, from: nat, to: nat, length: nat): Build {
    Build(next, from + length, to + length, b.table + [Move(from, to, length)])
  }

  /** The table for the buffer's channels below i; every one of them is active. */
  function Channels(active: Mask, mask: Mask, w: seq<nat>, i: nat): (b: Build)
    requires Subset(mask, active) && i <= |mask| <= |w| && Widths(w)
    ensures b.next <= i
  {
    if i == 0 then Build(0, 0, 0, [])
    else
      var b := Channels(active, mask, w, i - 1);
      if mask[i - 1]
      then Append(b, i, From(active, w, b, i - 1), PadTo(b.outLoc, w[i - 1]), w[i - 1])
      else b
  }

  /** The whole table; the timestamp's width is the one after the channels'. */
  function Table(active: Mask, mask: Mask, w: seq<nat>, ts: bool): Build
    requires Subset(mask, active) && |mask| < |w| && Widths(w)
  {
    var b := Channels(active, mask, w, |mask|);
    var len := w[|mask|];
    if ts then Append(b, b.next, PadTo(b.inLoc, len), PadTo(b.outLoc, len), len) else b
  }

  // ---------- the output is laid out as declared ----------

  /** iio_compute_scan_bytes: the timestamp counts as one more channel. */
  function WithStamp(mask: Mask, ts: bool): Mask { mask + [ts] }

  function ScanBytes(mask: Mask, w: seq<nat>, ts: bool): nat
    requires |mask| < |w| && Widths(w)
  {
    End(WithStamp(mask, ts), w, |mask| + 1)
  }

  lemma {:induction false} StampIsLast(mask: Mask, w: seq<nat>, ts: bool, i: nat)
    requires i <= |mask| < |w| && Widths(w)
    ensures End(WithStamp(mask, ts), w, i) == End(mask, w, i)
  {
    if i > 0 { StampIsLast(mask, w, ts, i - 1); }
  }

  /** Destinations in order, apart, each aligned to its length, all before a bound. */
  ghost predicate LaidOut(table: seq<Move>, size: nat) {
    && (forall k :: 0 <= k < |table| ==>
         IsWidth(table[k].length) && table[k].to % table[k].length == 0 && table[k].to + table[k].length <= size)
    && forall j, k :: 0 <= j < k < |table| ==> table[j].to + table[j].length <= table[k].to
  }

  lemma AppendLaidOut(b: Build, next: nat, from: nat, len: nat)
    requires LaidOut(b.table, b.outLoc) && IsWidth(len)
    ensures var r := Append(b, next, from, PadTo(b.outLoc, len), len); LaidOut(r.table, r.outLoc)
  {
    var r := Append(b, next, from, PadTo(b.outLoc, len), len);
    forall j, k | 0 <= j < k < |r.table| ensures r.table[j].to + r.table[j].length <= r.table[k].to {
      if k < |b.table| { assert b.table[j].to + b.table[j].length <= b.table[k].to; }
    }
  }

  lemma {:induction false} ChannelsLaidOut(active: Mask, mask: Mask, w: seq<nat>, i: nat)
    requires Subset(mask, active) && i <= |mask| <= |w| && Widths(w)
    ensures var b := Channels(active, mask, w, i); LaidOut(b.table, b.outLoc) && b.outLoc == End(mask, w, i)
  {
    if i > 0 {
      var j := i - 1;
      ChannelsLaidOut(active, mask, w, j);
      var b := Channels(active, mask, w, j);
      if mask[j] {
        AppendLaidOut(b, i, From(active, w, b, j), w[j]);
      } else {
        assert Channels(active, mask, w, i) == b;
      }
    }
  }

  /** The destinations fill exactly one datum of the buffer's declared layout, without overlap. */
  lemma OutputLaidOut(active: Mask, mask: Mask, w: seq<nat>, ts: bool)
    requires Subset(mask, active) && |mask| < |w| && Widths(w)
    ensures var b := Table(active, mask, w, ts); LaidOut(b.table, b.outLoc) && b.outLoc == ScanBytes(mask, w, ts)
  {
    ChannelsLaidOut(active, mask, w, |mask|);
    StampIsLast(mask, w, ts, |mask|);
    var b := Channels(active, mask, w, |mask|);
    if ts { AppendLaidOut(b, b.next, PadTo(b.inLoc, w[|mask|]), w[|mask|]); }
  }

  // ---------- the sources ----------

  /** Neighbouring active channels below n: the later is no narrower, and divides where the earlier starts. */
  ghost predicate FriendlyBelow(active: Mask, w: seq<nat>, n: nat)
    requires n <= |active| <= |w| && Widths(w)
  {
    forall j :: 0 <= j < n ==> FriendlyAt(active, w, n, j)
  }

  predicate FriendlyAt(active: Mask, w: seq<nat>, n: nat, j: nat)
    requires j < n <= |active| <= |w| && Widths(w)
  {
    active[j] && NextBit(active, j + 1) < n ==> FriendlyPair(active, w, j, NextBit(active, j + 1))
  }

  predicate FriendlyPair(active: Mask, w: seq<nat>, j: nat, k: nat)
    requires j < |active| && k < |active| <= |w| && Widths(w)
  {
    w[j] <= w[k] && Start(active, w, j) % w[k] == 0
  }

  ghost predicate Friendly(active: Mask, w: seq<nat>)
    requires |active| <= |w| && Widths(w)
  {
    FriendlyBelow(active, w, |active|)
  }

  /** Every channel of the buffer is copied from where the scan of the active channels has it. */
  ghost predicate SourcesRight(active: Mask, mask: Mask, w: seq<nat>)
    requires Subset(mask, active) && |mask| <= |w| && Widths(w)
  {
    forall i :: 0 <= i < |mask| ==> SourceRight(active, mask, w, i)
  }

  predicate SourceRight(active: Mask, mask: Mask, w: seq<nat>, i: nat)
    requires Subset(mask, active) && i < |mask| <= |w| && Widths(w)
  {
    mask[i] ==> From(active, w, Channels(active, mask, w, i), i) == Start(active, w, i)
  }

  /** Landing on the next channel, from a location that pads to where this one starts. */
  lemma LandRight(loc: nat, start: nat, v: nat, w: nat)
    requires IsWidth(v) && IsWidth(w) && v <= w && PadTo(loc, v) == start && start % w == 0
    ensures PadTo(loc + w, w) == PadTo(start + v, w) == start + w
  {
    AddWidth(start, w);
    PadUnique(loc + w, start + w, w);
    PadUnique(start + v, start + w, w);
  }

  lemma AddWidth(x: nat, w: nat)
    requires IsWidth(w) && x % w == 0
    ensures (x + w) % w == 0
  {
  }

  /** What follows channel j in a scan: End right behind it, until the next active channel. */
  lemma NextStart(active: Mask, w: seq<nat>, j: nat)
    requires j < |active| <= |w| && Widths(w) && active[j] && NextBit(active, j + 1) < |active|
    ensures var k := NextBit(active, j + 1); Start(active, w, k) == PadTo(Start(active, w, j) + w[j], w[k])
  {
    EndSkips(active, w, j + 1, NextBit(active, j + 1));
  }

  lemma {:induction false} SkipRight(active: Mask, w: seq<nat>, ind: nat, out: nat, loc: nat)
    requires ind <= out < |active| <= |w| && Widths(w) && active[ind] && active[out]
    requires FriendlyBelow(active, w, out + 1) && PadTo(loc, w[ind]) == Start(active, w, ind)
    ensures PadTo(Skip(active, w, ind, out, loc), w[out]) == Start(active, w, out)
    decreases out - ind
  {
    if ind < out {
      var k := NextBit(active, ind + 1);
      assert k <= out;
      assert FriendlyAt(active, w, out + 1, ind);
      LandRight(loc, Start(active, w, ind), w[ind], w[k]);
      NextStart(active, w, ind);
      SkipRight(active, w, k, out, PadTo(loc + w[k], w[k]));
    }
  }

  lemma InLocStep(active: Mask, mask: Mask, w: seq<nat>, i: nat)
    requires Subset(mask, active) && i < |mask| <= |w| && Widths(w) && mask[i]
    requires From(active, w, Channels(active, mask, w, i), i) == Start(active, w, i)
    ensures var b := Channels(active, mask, w, i + 1);
      b.next == i + 1 && b.inLoc == End(active, w, i + 1)
  {
  }

  lemma FriendlyStep(active: Mask, mask: Mask, w: seq<nat>, i: nat)
    requires Subset(mask, active) && i < |mask| <= |w| && Widths(w) && FriendlyBelow(active, w, i + 1)
    requires var b := Channels(active, mask, w, i); b.inLoc == End(active, w, b.next)
    ensures SourceRight(active, mask, w, i)
    ensures var b := Channels(active, mask, w, i + 1); b.inLoc == End(active, w, b.next)
  {
    if mask[i] {
      FriendlySource(active, mask, w, i);
      InLocStep(active, mask, w, i);
    }
  }

  lemma {:induction false} FriendlyInLoc(active: Mask, mask: Mask, w: seq<nat>, i: nat)
    requires Subset(mask, active) && i <= |mask| <= |w| && Widths(w) && FriendlyBelow(active, w, i)
    ensures var b := Channels(active, mask, w, i); b.inLoc == End(active, w, b.next)
  {
    if i > 0 {
      FriendlyLess(active, w, i, i - 1);
      FriendlyInLoc(active, mask, w, i - 1);
      FriendlyStep(active, mask, w, i - 1);
    }
  }

  lemma FriendlySourceAt(active: Mask, mask: Mask, w: seq<nat>, i: nat)
    requires Subset(mask, active) && i < |mask| <= |w| && Widths(w) && Friendly(active, w)
    ensures SourceRight(active, mask, w, i)
  {
    FriendlyLess(active, w, |active|, i);
    FriendlyLess(active, w, |active|, i + 1);
    FriendlyInLoc(active, mask, w, i);
    FriendlyStep(active, mask, w, i);
  }

  lemma FriendlyLess(active: Mask, w: seq<nat>, n: nat, m: nat)
    requires m <= n <= |active| <= |w| && Widths(w) && FriendlyBelow(active, w, n)
    ensures FriendlyBelow(active, w, m)
  {
    forall j | 0 <= j < m ensures FriendlyAt(active, w, m, j) {
      assert FriendlyAt(active, w, n, j);
    }
  }

  lemma {:induction false} FriendlySource(active: Mask, mask: Mask, w: seq<nat>, i: nat)
    requires Subset(mask, active) && i < |mask| <= |w| && Widths(w) && FriendlyBelow(active, w, i + 1) && mask[i]
    requires var b := Channels(active, mask, w, i); b.inLoc == End(active, w, b.next)
    ensures From(active, w, Channels(active, mask, w, i), i) == Start(active, w, i)
  {
    var b := Channels(active, mask, w, i);
    var ind := NextBit(active, b.next);
    EndSkips(active, w, b.next, ind);
    SkipRight(active, w, ind, i, b.inLoc);
  }

  // ---------- and only then ----------

  function Only(n: nat, k: nat): Mask { seq(n, i => i == k) }

  lemma {:induction false} SkipFarther(active: Mask, w: seq<nat>, ind: nat, j: nat, loc: nat)
    requires ind <= j < |active| <= |w| && Widths(w) && active[ind] && active[j] && NextBit(active, j + 1) < |active|
    ensures var k := NextBit(active, j + 1);
      Skip(active, w, ind, k, loc) == PadTo(Skip(active, w, ind, j, loc) + w[k], w[k])
    decreases j - ind
  {
    if ind < j { SkipFarther(active, w, NextBit(active, ind + 1), j, PadTo(loc + w[NextBit(active, ind + 1)], w[NextBit(active, ind + 1)])); }
  }

  lemma {:induction false} SkipAligned(active: Mask, w: seq<nat>, ind: nat, out: nat, loc: nat)
    requires ind <= out < |active| <= |w| && Widths(w) && active[ind] && active[out] && loc % w[ind] == 0
    ensures Skip(active, w, ind, out, loc) % w[out] == 0
    decreases out - ind
  {
    if ind < out {
      var k := NextBit(active, ind + 1);
      SkipAligned(active, w, k, out, PadTo(loc + w[k], w[k]));
    }
  }

  /** Landing goes wrong when the next channel is narrower or does not divide the start. */
  lemma LandWrong(start: nat, v: nat, w: nat)
    requires IsWidth(v) && IsWidth(w) && start % v == 0 && !(v <= w && start % w == 0)
    ensures PadTo(start + w, w) != PadTo(start + v, w)
  {
    if v > w {
      WiderIsMultiple(start, w, v);
      AddWidth(start, w);
      PadUnique(start + w, start + w, w);
    } else {
      var up := PadTo(start, w);
      WiderIsMultiple(up, v, w);
      Gap(start, up, v);
      PadIsLeast(start + v, up, w);
      var far := PadTo(start + w, w);
      assert far > up;
    }
  }

  lemma {:induction false} OnlyBefore(active: Mask, w: seq<nat>, k: nat, i: nat)
    requires i <= k < |active| <= |w| && Widths(w) && active[k]
    ensures Channels(active, Only(|active|, k), w, i) == Build(0, 0, 0, [])
  {
    if i > 0 { OnlyBefore(active, w, k, i - 1); }
  }

  lemma {:induction false} SkipToPair(active: Mask, w: seq<nat>, j: nat)
    requires j < |active| <= |w| && Widths(w) && active[j] && FriendlyBelow(active, w, j + 1)
    ensures NextBit(active, 0) <= j
    ensures Skip(active, w, NextBit(active, 0), j, 0) == Start(active, w, j)
  {
    var first := NextBit(active, 0);
    EndSkips(active, w, 0, first);
    SkipRight(active, w, first, j, 0);
    SkipAligned(active, w, first, j, 0);
  }

  lemma UnfriendlySkip(active: Mask, w: seq<nat>, j: nat, k: nat)
    requires j < k < |active| <= |w| && Widths(w) && active[j] && NextBit(active, j + 1) == k
    requires FriendlyBelow(active, w, j + 1) && !FriendlyPair(active, w, j, k)
    ensures PadTo(Skip(active, w, NextBit(active, 0), k, 0), w[k]) != Start(active, w, k)
  {
    var x, start := SkipFromFirst(active, w, j, k);
    NextStart(active, w, j);
    StartAligned(active, w, j);
    Misplaced(x, Start(active, w, k), start, w[j], w[k]);
  }

  /** Up to the pair nothing goes wrong, and the last landing adds the later width. */
  lemma SkipFromFirst(active: Mask, w: seq<nat>, j: nat, k: nat) returns (x: nat, start: nat)
    requires j < k < |active| <= |w| && Widths(w) && active[j] && NextBit(active, j + 1) == k
    requires FriendlyBelow(active, w, j + 1)
    ensures NextBit(active, 0) <= j && start == Start(active, w, j)
    ensures x == Skip(active, w, NextBit(active, 0), k, 0) == PadTo(start + w[k], w[k])
  {
    var first := NextBit(active, 0);
    SkipToPair(active, w, j);
    SkipFarther(active, w, first, j, 0);
    start := Start(active, w, j);
    x := Skip(active, w, first, k, 0);
  }

  lemma StartAligned(active: Mask, w: seq<nat>, j: nat)
    requires j < |active| <= |w| && Widths(w)
    ensures Start(active, w, j) % w[j] == 0
  {
  }

  lemma Misplaced(x: nat, y: nat, start: nat, v: nat, w: nat)
    requires IsWidth(v) && IsWidth(w) && start % v == 0 && !(v <= w && start % w == 0)
    requires x == PadTo(start + w, w) && y == PadTo(start + v, w)
    ensures PadTo(x, w) != y
  {
    LandWrong(start, v, w);
  }

  /** A buffer with only the later channel of an unfriendly pair reads from the wrong place. */
  lemma UnfriendlyPairFails(active: Mask, w: seq<nat>, j: nat)
    requires j < |active| <= |w| && Widths(w) && active[j] && NextBit(active, j + 1) < |active|
    requires FriendlyBelow(active, w, j + 1) && !FriendlyPair(active, w, j, NextBit(active, j + 1))
    ensures !SourcesRight(active, Only(|active|, NextBit(active, j + 1)), w)
  {
    var k := NextBit(active, j + 1);
    var mask := Only(|active|, k);
    OnlyBefore(active, w, k, k);
    UnfriendlySkip(active, w, j, k);
    assert !SourceRight(active, mask, w, k);
  }

  lemma {:induction false} FirstUnfriendly(active: Mask, w: seq<nat>, n: nat) returns (j: nat)
    requires n <= |active| <= |w| && Widths(w) && !FriendlyBelow(active, w, n)
    ensures j < n && active[j] && NextBit(active, j + 1) < n
    ensures FriendlyBelow(active, w, j + 1) && !FriendlyPair(active, w, j, NextBit(active, j + 1))
    decreases n
  {
    if n > 0 && !FriendlyBelow(active, w, n - 1) {
      j := FirstUnfriendly(active, w, n - 1);
    } else {
      j :| 0 <= j < n && !FriendlyAt(active, w, n, j);
      FriendlyLess(active, w, n - 1, j + 1);
    }
  }

  /** The sources are right for every buffer exactly if the device's active channels are friendly. */
  lemma SourcesRightIff(active: Mask, w: seq<nat>)
    requires |active| <= |w| && Widths(w)
    ensures (forall mask :: Subset(mask, active) ==> SourcesRight(active, mask, w)) <==> Friendly(active, w)
  {
    if Friendly(active, w) {
      forall mask | Subset(mask, active) ensures SourcesRight(active, mask, w) {
        forall i | 0 <= i < |mask| ensures SourceRight(active, mask, w, i) { FriendlySourceAt(active, mask, w, i); }
      }
    } else {
      var j := FirstUnfriendly(active, w, |active|);
      var mask := Only(|active|, NextBit(active, j + 1));
      UnfriendlyPairFails(active, w, j);
      assert Subset(mask, active);
    }
  }

  /** Channels of one width are friendly. */
  lemma OneWidthIsFriendly(active: Mask, w: seq<nat>, len: nat)
    requires |active| <= |w| && Widths(w) && forall k :: 0 <= k < |active| ==> w[k] == len
    ensures Friendly(active, w)
  {
    forall j | 0 <= j < |active| ensures FriendlyAt(active, w, |active|, j) {
    }
  }
}
