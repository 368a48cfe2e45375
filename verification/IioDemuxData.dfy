/** The bytes: demultiplexing a scan of the active channels gives the buffer's own scan. */
module IioDemuxData {
  import opened ScanLayout
  import opened IioDemux

  type Bytes = seq<bv8>

  function Zeros(n: nat): (r: Bytes)
    ensures |r| == n
  {
    seq(n, _ => 0)
  }

  /** One value for each channel, as wide as the channel. */
  predicate Fits(value: seq<Bytes>, w: seq<nat>) {
    |value| == |w| && forall k :: 0 <= k < |w| ==> |value[k]| == w[k]
  }

  /** The scan of a mask's channels below i, with zeroes between them. */
  function Pack(mask: Mask, w: seq<nat>, value: seq<Bytes>, i: nat): (r: Bytes)
    requires i <= |mask| <= |w| && Widths(w) && Fits(value, w)
    ensures |r| == End(mask, w, i)
  {
    if i == 0 then []
    else
      var p := Pack(mask, w, value, i - 1);
      if mask[i - 1] then p + Zeros(Start(mask, w, i - 1) - |p|) + value[i - 1] else p
  }

  /** A scan as the device delivers it: every active channel in its place, anything between. */
  predicate Delivers(data: Bytes, active: Mask, w: seq<nat>, value: seq<Bytes>)
    requires |active| <= |w| && Widths(w) && Fits(value, w)
  {
    forall k :: 0 <= k < |active| && active[k] ==>
      Start(active, w, k) + w[k] <= |data| && data[Start(active, w, k)..Start(active, w, k) + w[k]] == value[k]
  }

  /** memcpy of one table entry. */
  function Copy(bounce: Bytes, data: Bytes, m: Move): (r: Bytes)
    requires m.from + m.length <= |data| && m.to + m.length <= |bounce|
    ensures |r| == |bounce|
  {
    bounce[..m.to] + data[m.from..m.from + m.length] + bounce[m.to + m.length..]
  }

  ghost predicate InBounds(table: seq<Move>, size: nat, data: Bytes) {
    forall k :: 0 <= k < |table| ==> table[k].from + table[k].length <= |data| && table[k].to + table[k].length <= size
  }

  /** The copies of the first n entries. */
  function CopyAll(table: seq<Move>, n: nat, data: Bytes, bounce: Bytes): (r: Bytes)
    requires n <= |table| && InBounds(table, |bounce|, data)
    ensures |r| == |bounce|
  {
    if n == 0 then bounce else Copy(CopyAll(table, n - 1, data, bounce), data, table[n - 1])
  }

  /** Nothing but zeroes between the channels. */
  ghost predicate Padded(bounce: Bytes, mask: Mask, w: seq<nat>)
    requires |mask| <= |w| && Widths(w)
  {
    && |bounce| >= End(mask, w, |mask|)
    && forall k :: 0 <= k < |mask| && mask[k] ==>
      Start(mask, w, k) <= |bounce| && bounce[End(mask, w, k)..Start(mask, w, k)] == Zeros(Start(mask, w, k) - End(mask, w, k))
  }

  lemma ChannelInside(mask: Mask, w: seq<nat>, k: nat)
    requires k < |mask| <= |w| && Widths(w) && mask[k]
    ensures End(mask, w, k) <= Start(mask, w, k)
    ensures Start(mask, w, k) + w[k] == End(mask, w, k + 1) <= End(mask, w, |mask|)
  {
    EndGrows(mask, w, k + 1, |mask|);
  }

  lemma {:induction false} PackIsPrefix(mask: Mask, w: seq<nat>, value: seq<Bytes>, i: nat, j: nat)
    requires i <= j <= |mask| <= |w| && Widths(w) && Fits(value, w)
    ensures Pack(mask, w, value, i) <= Pack(mask, w, value, j)
    decreases j
  {
    if i < j { PackIsPrefix(mask, w, value, i, j - 1); }
  }

  lemma PackPadsAt(mask: Mask, w: seq<nat>, value: seq<Bytes>, k: nat)
    requires k < |mask| <= |w| && Widths(w) && Fits(value, w) && mask[k]
    ensures var all := Pack(mask, w, value, |mask|);
      var from, to := End(mask, w, k), Start(mask, w, k);
      to <= |all| && all[from..to] == Zeros(to - from)
  {
    PackIsPrefix(mask, w, value, k + 1, |mask|);
  }

  /** A packed scan has zeroes between its channels: it is what the next copy may start from. */
  lemma {:induction false} PackIsPadded(mask: Mask, w: seq<nat>, value: seq<Bytes>)
    requires |mask| <= |w| && Widths(w) && Fits(value, w)
    ensures Padded(Pack(mask, w, value, |mask|), mask, w)
  {
    forall k | 0 <= k < |mask| && mask[k]
      ensures Start(mask, w, k) <= |Pack(mask, w, value, |mask|)|
      ensures Pack(mask, w, value, |mask|)[End(mask, w, k)..Start(mask, w, k)] == Zeros(Start(mask, w, k) - End(mask, w, k))
    {
      PackPadsAt(mask, w, value, k);
    }
  }

  lemma ZerosArePadded(mask: Mask, w: seq<nat>)
    requires |mask| <= |w| && Widths(w)
    ensures Padded(Zeros(End(mask, w, |mask|)), mask, w)
  {
    var n := End(mask, w, |mask|);
    forall k | 0 <= k < |mask| && mask[k]
      ensures Start(mask, w, k) <= n
      ensures Zeros(n)[End(mask, w, k)..Start(mask, w, k)] == Zeros(Start(mask, w, k) - End(mask, w, k))
    {
      ChannelInside(mask, w, k);
      ZerosAmongZeros(n, End(mask, w, k), Start(mask, w, k));
    }
  }

  lemma ZerosAmongZeros(n: nat, from: nat, to: nat)
    requires from <= to <= n
    ensures Zeros(n)[from..to] == Zeros(to - from)
  {
  }

  /** One copy: the packed part grows by one channel. */
  lemma CopyGrows(p: Bytes, bounce: Bytes, data: Bytes, m: Move, value: Bytes)
    requires |p| <= m.to && m.to + m.length <= |bounce| && m.from + m.length <= |data|
    requires bounce[|p|..m.to] == Zeros(m.to - |p|) && data[m.from..m.from + m.length] == value
    ensures Copy(p + bounce[|p|..], data, m) == p + Zeros(m.to - |p|) + value + bounce[m.to + m.length..]
  {
    var b := p + bounce[|p|..];
    assert b[..m.to] == p + bounce[|p|..m.to];
    assert b[m.to + m.length..] == bounce[m.to + m.length..];
  }

  lemma {:induction false} CopyAllPrefix(table: seq<Move>, m: Move, n: nat, data: Bytes, bounce: Bytes)
    requires n <= |table| && InBounds(table + [m], |bounce|, data)
    ensures InBounds(table, |bounce|, data)
    ensures CopyAll(table + [m], n, data, bounce) == CopyAll(table, n, data, bounce)
  {
    assert forall k :: 0 <= k < |table| ==> (table + [m])[k] == table[k];
    if n > 0 { CopyAllPrefix(table, m, n - 1, data, bounce); }
  }

  lemma {:induction false} AppendCopies(table: seq<Move>, m: Move, data: Bytes, bounce: Bytes, p: Bytes, value: Bytes)
    requires InBounds(table, |bounce|, data) && |p| <= |bounce|
    requires CopyAll(table, |table|, data, bounce) == p + bounce[|p|..]
    requires |p| <= m.to && m.to + m.length <= |bounce| && m.from + m.length <= |data|
    requires bounce[|p|..m.to] == Zeros(m.to - |p|) && data[m.from..m.from + m.length] == value
    ensures InBounds(table + [m], |bounce|, data)
    ensures CopyAll(table + [m], |table| + 1, data, bounce) == p + Zeros(m.to - |p|) + value + bounce[m.to + m.length..]
  {
    CopyAllPrefix(table, m, |table|, data, bounce);
    CopyGrows(p, bounce, data, m, value);
  }

  /** The state of the output after the entries of a table: packed so far, untouched behind. */
  ghost predicate Filled(b: Build, data: Bytes, bounce: Bytes, p: Bytes) {
    && |p| == b.outLoc <= |bounce|
    && InBounds(b.table, |bounce|, data)
    && CopyAll(b.table, |b.table|, data, bounce) == p + bounce[|p|..]
  }

  lemma {:induction false} ChannelsFill(active: Mask, mask: Mask, w: seq<nat>, value: seq<Bytes>,
                                        data: Bytes, bounce: Bytes, i: nat)
    requires Subset(mask, active) && i <= |mask| <= |w| && Widths(w) && Fits(value, w)
    requires SourcesRight(active, mask, w) && Delivers(data, active, w, value) && Padded(bounce, mask, w)
    ensures Filled(Channels(active, mask, w, i), data, bounce, Pack(mask, w, value, i))
  {
    if i == 0 {
      assert [] + bounce[0..] == bounce;
    } else {
      ChannelsFill(active, mask, w, value, data, bounce, i - 1);
      FillNext(active, mask, w, value, data, bounce, i - 1, i);
    }
  }

  lemma {:induction false} FillNext(active: Mask, mask: Mask, w: seq<nat>, value: seq<Bytes>, data: Bytes, bounce: Bytes, i: nat, next: nat)
    requires Subset(mask, active) && i < |mask| <= |w| && Widths(w) && Fits(value, w) && next == i + 1
    requires SourcesRight(active, mask, w) && Delivers(data, active, w, value) && Padded(bounce, mask, w)
    requires Filled(Channels(active, mask, w, i), data, bounce, Pack(mask, w, value, i))
    ensures Filled(Channels(active, mask, w, next), data, bounce, Pack(mask, w, value, next))
  {
    if mask[i] {
      assert SourceRight(active, mask, w, i);
      PaddedAt(bounce, mask, w, i);
      DeliveredAt(data, active, w, value, i);
      ChannelFills(active, mask, w, value, data, bounce, i);
    } else {
      assert Channels(active, mask, w, next) == Channels(active, mask, w, i);
      assert Pack(mask, w, value, next) == Pack(mask, w, value, i);
    }
  }

  lemma PaddedAt(bounce: Bytes, mask: Mask, w: seq<nat>, i: nat)
    requires i < |mask| <= |w| && Widths(w) && mask[i] && Padded(bounce, mask, w)
    ensures var end, to := End(mask, w, i), Start(mask, w, i);
      end <= to <= |bounce| && End(mask, w, |mask|) <= |bounce| && bounce[end..to] == Zeros(to - end)
  {
  }

  lemma DeliveredAt(data: Bytes, active: Mask, w: seq<nat>, value: seq<Bytes>, i: nat)
    requires i < |active| <= |w| && Widths(w) && Fits(value, w) && active[i] && Delivers(data, active, w, value)
    ensures var from := Start(active, w, i); from + w[i] <= |data| && data[from..from + w[i]] == value[i]
  {
  }

  lemma PackNext(mask: Mask, w: seq<nat>, value: seq<Bytes>, i: nat)
    requires i < |mask| <= |w| && Widths(w) && Fits(value, w) && mask[i]
    ensures var p := Pack(mask, w, value, i);
      |p| == End(mask, w, i) <= Start(mask, w, i) &&
      Pack(mask, w, value, i + 1) == p + Zeros(Start(mask, w, i) - |p|) + value[i]
  {
  }

  lemma AppendFills(b: Build, next: nat, m: Move, data: Bytes, bounce: Bytes, p: Bytes, value: Bytes)
    requires Filled(b, data, bounce, p) && |value| == m.length
    requires |p| <= m.to && m.to + m.length <= |bounce| && m.from + m.length <= |data|
    requires bounce[|p|..m.to] == Zeros(m.to - |p|) && data[m.from..m.from + m.length] == value
    ensures Filled(Append(b, next, m.from, m.to, m.length), data, bounce, p + Zeros(m.to - |p|) + value)
  {
    AppendCopies(b.table, m, data, bounce, p, value);
  }

  lemma ChannelFills(active: Mask, mask: Mask, w: seq<nat>, value: seq<Bytes>, data: Bytes, bounce: Bytes, i: nat)
    requires Subset(mask, active) && i < |mask| <= |w| && Widths(w) && Fits(value, w) && mask[i]
    requires SourceRight(active, mask, w, i)
    requires var from := Start(active, w, i); from + w[i] <= |data| && data[from..from + w[i]] == value[i]
    requires var end, to := End(mask, w, i), Start(mask, w, i);
      end <= to <= |bounce| && End(mask, w, |mask|) <= |bounce| && bounce[end..to] == Zeros(to - end)
    requires Filled(Channels(active, mask, w, i), data, bounce, Pack(mask, w, value, i))
    ensures Filled(Channels(active, mask, w, i + 1), data, bounce, Pack(mask, w, value, i + 1))
  {
    var b := Channels(active, mask, w, i);
    var m := Move(Start(active, w, i), Start(mask, w, i), w[i]);
    ChannelInside(mask, w, i);
    PackNext(mask, w, value, i);
    ChannelsLaidOut(active, mask, w, i);
    assert From(active, w, b, i) == m.from && PadTo(b.outLoc, w[i]) == m.to;
    AppendFills(b, i + 1, m, data, bounce, Pack(mask, w, value, i), value[i]);
  }

  // ---------- the timestamp ----------

  /** One above the highest set bit below i. */
  function Top(mask: Mask, i: nat): (t: nat)
    requires i <= |mask|
    ensures t <= i && (t > 0 ==> mask[t - 1])
    ensures forall k :: t <= k < i ==> !mask[k]
  {
    if i == 0 || mask[i - 1] then i else Top(mask, i - 1)
  }

  lemma {:induction false} RightAt(active: Mask, mask: Mask, w: seq<nat>, i: nat)
    requires Subset(mask, active) && i < |mask| <= |w| && Widths(w) && SourcesRight(active, mask, w) && mask[i]
    ensures From(active, w, Channels(active, mask, w, i), i) == Start(active, w, i)
  {
    assert SourceRight(active, mask, w, i);
  }

  lemma {:induction false} ChannelsSkip(active: Mask, mask: Mask, w: seq<nat>, i: nat, j: nat)
    requires Subset(mask, active) && i <= j <= |mask| <= |w| && Widths(w) && forall k :: i <= k < j ==> !mask[k]
    ensures Channels(active, mask, w, i) == Channels(active, mask, w, j)
    decreases j
  {
    if i < j { ChannelsSkip(active, mask, w, i, j - 1); }
  }

  /** After the channels the source location is right behind the buffer's last channel in the scan. */
  lemma InLocBehind(active: Mask, mask: Mask, w: seq<nat>, i: nat, t: nat)
    requires Subset(mask, active) && t <= i <= |mask| <= |w| && Widths(w) && forall k :: t <= k < i ==> !mask[k]
    requires t > 0 ==> mask[t - 1] && From(active, w, Channels(active, mask, w, t - 1), t - 1) == Start(active, w, t - 1)
    ensures var b := Channels(active, mask, w, i);
      b.next == t && b.inLoc == End(active, w, t)
  {
    ChannelsSkip(active, mask, w, t, i);
    if t > 0 { InLocStep(active, mask, w, t - 1); }
  }

  /** Where the table takes the timestamp from. */
  function StampFrom(active: Mask, mask: Mask, w: seq<nat>): nat
    requires Subset(mask, active) && |mask| < |w| && Widths(w)
  {
    PadTo(Channels(active, mask, w, |mask|).inLoc, w[|mask|])
  }

  /** What the active channels above the buffer's own take up does not move the timestamp. */
  predicate StampFollows(active: Mask, mask: Mask, w: seq<nat>)
    requires |mask| == |active| < |w| && Widths(w)
  {
    PadTo(End(active, w, Top(mask, |mask|)), w[|mask|]) == PadTo(End(active, w, |mask|), w[|mask|])
  }

  lemma {:induction false} TopRight(active: Mask, mask: Mask, w: seq<nat>) returns (t: nat)
    requires Subset(mask, active) && |mask| <= |w| && Widths(w) && SourcesRight(active, mask, w)
    ensures t == Top(mask, |mask|)
    ensures t > 0 ==> From(active, w, Channels(active, mask, w, t - 1), t - 1) == Start(active, w, t - 1)
  {
    t := Top(mask, |mask|);
    if t > 0 { RightAt(active, mask, w, t - 1); }
  }

  lemma StampRight(active: Mask, mask: Mask, w: seq<nat>, t: nat)
    requires Subset(mask, active) && |mask| < |w| && Widths(w) && t == Top(mask, |mask|)
    requires t > 0 ==> From(active, w, Channels(active, mask, w, t - 1), t - 1) == Start(active, w, t - 1)
    ensures StampFrom(active, mask, w) == Start(WithStamp(active, true), w, |mask|) <==> StampFollows(active, mask, w)
  {
    InLocBehind(active, mask, w, |mask|, t);
    StampIsLast(active, w, true, |mask|);
  }

  /** The timestamp is taken from its place in the scan exactly if no channel above moves it there. */
  lemma StampRightIff(active: Mask, mask: Mask, w: seq<nat>)
    requires Subset(mask, active) && |mask| < |w| && Widths(w) && SourcesRight(active, mask, w)
    ensures StampFrom(active, mask, w) == Start(WithStamp(active, true), w, |mask|) <==> StampFollows(active, mask, w)
  {
    var t := TopRight(active, mask, w);
    StampRight(active, mask, w, t);
  }

  /** So it is if the highest active channel is the buffer's. */
  lemma HighestChannelIsEnough(active: Mask, mask: Mask, w: seq<nat>)
    requires Subset(mask, active) && |mask| < |w| && Widths(w)
    requires Top(mask, |mask|) == Top(active, |active|)
    ensures StampFollows(active, mask, w)
  {
    EndSkips(active, w, Top(active, |active|), |active|);
  }

  // ---------- the whole demultiplexer ----------

  lemma StampIsInside(active: Mask, w: seq<nat>, ts: bool, value: seq<Bytes>, data: Bytes)
    requires |active| < |w| && Widths(w) && Fits(value, w) && Delivers(data, WithStamp(active, ts), w, value)
    ensures Delivers(data, active, w, value)
  {
    forall k | 0 <= k < |active| && active[k]
      ensures Start(active, w, k) + w[k] <= |data| && data[Start(active, w, k)..Start(active, w, k) + w[k]] == value[k]
    {
      StampIsLast(active, w, ts, k);
      assert WithStamp(active, ts)[k];
    }
  }

  lemma PaddedInside(bounce: Bytes, mask: Mask, w: seq<nat>, ts: bool)
    requires |mask| < |w| && Widths(w) && Padded(bounce, WithStamp(mask, ts), w)
    ensures Padded(bounce, mask, w)
  {
    var all := WithStamp(mask, ts);
    StampIsLast(mask, w, ts, |mask|);
    forall k | 0 <= k < |mask| && mask[k]
      ensures Start(mask, w, k) <= |bounce|
      ensures bounce[End(mask, w, k)..Start(mask, w, k)] == Zeros(Start(mask, w, k) - End(mask, w, k))
    {
      StampIsLast(mask, w, ts, k);
      assert all[k];
    }
  }

  lemma {:induction false} PackInside(mask: Mask, w: seq<nat>, ts: bool, value: seq<Bytes>, i: nat)
    requires i <= |mask| < |w| && Widths(w) && Fits(value, w)
    ensures Pack(WithStamp(mask, ts), w, value, i) == Pack(mask, w, value, i)
  {
    if i > 0 {
      PackInside(mask, w, ts, value, i - 1);
      StampIsLast(mask, w, ts, i - 1);
    }
  }

  /**
   Demultiplexing a scan of the active channels gives exactly the scan of the buffer's own
   channels and timestamp, whatever scan the bounce buffer held before.
   */
  lemma {:induction false} DemuxIsScan(active: Mask, mask: Mask, w: seq<nat>, ts: bool, stamped: bool,
                    value: seq<Bytes>, data: Bytes, bounce: Bytes)
    requires Subset(mask, active) && |mask| < |w| && Widths(w) && Fits(value, w)
    requires SourcesRight(active, mask, w) && (ts ==> stamped && StampFollows(active, mask, w))
    requires Delivers(data, WithStamp(active, stamped), w, value)
    requires Padded(bounce, WithStamp(mask, ts), w) && |bounce| == ScanBytes(mask, w, ts)
    ensures var table := Table(active, mask, w, ts).table;
      InBounds(table, |bounce|, data) &&
      CopyAll(table, |table|, data, bounce) == Pack(WithStamp(mask, ts), w, value, |mask| + 1)
  {
    StampIsInside(active, w, stamped, value, data);
    PaddedInside(bounce, mask, w, ts);
    ChannelsFill(active, mask, w, value, data, bounce, |mask|);
    PackInside(mask, w, ts, value, |mask|);
    if ts {
      StampFills(active, mask, w, value, data, bounce);
    } else {
      var b := Channels(active, mask, w, |mask|);
      var p := Pack(mask, w, value, |mask|);
      StampIsLast(mask, w, ts, |mask|);
      assert bounce[|p|..] == [];
    }
  }

  lemma StampValue(active: Mask, mask: Mask, w: seq<nat>, value: seq<Bytes>, data: Bytes)
    requires Subset(mask, active) && |mask| < |w| && Widths(w) && Fits(value, w)
    requires SourcesRight(active, mask, w) && StampFollows(active, mask, w)
    requires Delivers(data, WithStamp(active, true), w, value)
    ensures var from, len := StampFrom(active, mask, w), w[|mask|];
      from + len <= |data| && data[from..from + len] == value[|mask|]
  {
    StampRightIff(active, mask, w);
    assert WithStamp(active, true)[|mask|];
  }

  /** Room for the timestamp: zeroes up to where it starts, and its width to the end. */
  lemma StampRoom(mask: Mask, w: seq<nat>, value: seq<Bytes>, bounce: Bytes)
    requires |mask| < |w| && Widths(w) && Fits(value, w)
    requires Padded(bounce, WithStamp(mask, true), w) && |bounce| == ScanBytes(mask, w, true)
    ensures var p, to := Pack(mask, w, value, |mask|), Start(WithStamp(mask, true), w, |mask|);
      && |p| <= to && to + w[|mask|] == |bounce| && to == PadTo(|p|, w[|mask|])
      && bounce[|p|..to] == Zeros(to - |p|)
      && Pack(WithStamp(mask, true), w, value, |mask| + 1) == p + Zeros(to - |p|) + value[|mask|]
  {
    var all := WithStamp(mask, true);
    StampIsLast(mask, w, true, |mask|);
    PackInside(mask, w, true, value, |mask|);
    PackNext(all, w, value, |mask|);
    PaddedAt(bounce, all, w, |mask|);
    ChannelInside(all, w, |mask|);
  }

  lemma StampFills(active: Mask, mask: Mask, w: seq<nat>, value: seq<Bytes>, data: Bytes, bounce: Bytes)
    requires Subset(mask, active) && |mask| < |w| && Widths(w) && Fits(value, w)
    requires SourcesRight(active, mask, w) && StampFollows(active, mask, w)
    requires Delivers(data, WithStamp(active, true), w, value)
    requires Padded(bounce, WithStamp(mask, true), w) && |bounce| == ScanBytes(mask, w, true)
    requires Filled(Channels(active, mask, w, |mask|), data, bounce, Pack(mask, w, value, |mask|))
    ensures var table := Table(active, mask, w, true).table;
      InBounds(table, |bounce|, data) &&
      CopyAll(table, |table|, data, bounce) == Pack(WithStamp(mask, true), w, value, |mask| + 1)
  {
    var b := Channels(active, mask, w, |mask|);
    StampValue(active, mask, w, value, data);
    StampRoom(mask, w, value, bounce);
    var m := Move(StampFrom(active, mask, w), Start(WithStamp(mask, true), w, |mask|), w[|mask|]);
    AppendToEnd(b, m, data, bounce, Pack(mask, w, value, |mask|), value[|mask|]);
  }

  lemma {:induction false} AppendToEnd(b: Build, m: Move, data: Bytes, bounce: Bytes, p: Bytes, value: Bytes)
    requires Filled(b, data, bounce, p) && |value| == m.length
    requires |p| <= m.to && m.to + m.length == |bounce| && m.from + m.length <= |data|
    requires bounce[|p|..m.to] == Zeros(m.to - |p|) && data[m.from..m.from + m.length] == value
    ensures var table := b.table + [m];
      InBounds(table, |bounce|, data) && CopyAll(table, |table|, data, bounce) == p + Zeros(m.to - |p|) + value
  {
    AppendFills(b, b.next, m, data, bounce, p, value);
    assert bounce[|bounce|..] == [];
  }

  /** With channels of one width this needs only the highest active channel, and that for the timestamp alone. */
  lemma {:induction false} OneWidthDemuxIsScan(active: Mask, mask: Mask, w: seq<nat>, len: nat, ts: bool, stamped: bool,
                            value: seq<Bytes>, data: Bytes, bounce: Bytes)
    requires Subset(mask, active) && |mask| < |w| && Widths(w) && Fits(value, w)
    requires forall k :: 0 <= k < |mask| ==> w[k] == len
    requires ts ==> stamped && Top(mask, |mask|) == Top(active, |active|)
    requires Delivers(data, WithStamp(active, stamped), w, value)
    requires Padded(bounce, WithStamp(mask, ts), w) && |bounce| == ScanBytes(mask, w, ts)
    ensures var table := Table(active, mask, w, ts).table;
      InBounds(table, |bounce|, data) &&
      CopyAll(table, |table|, data, bounce) == Pack(WithStamp(mask, ts), w, value, |mask| + 1)
  {
    OneWidthIsFriendly(active, w, len);
    SourcesRightIff(active, w);
    if ts { HighestChannelIsEnough(active, mask, w); }
    DemuxIsScan(active, mask, w, ts, stamped, value, data, bounce);
  }

  // ---------- the bounce buffer from scan to scan ----------

  /** An entry of the table writes one channel's place. */
  predicate Writes(m: Move, mask: Mask, w: seq<nat>, c: nat)
    requires |mask| <= |w| && Widths(w)
  {
    c < |mask| && mask[c] && m.to == Start(mask, w, c) && m.length == w[c]
  }

  ghost predicate WritesChannels(table: seq<Move>, mask: Mask, w: seq<nat>)
    requires |mask| <= |w| && Widths(w)
  {
    forall k :: 0 <= k < |table| ==> WritesSome(table[k], mask, w)
  }

  ghost predicate WritesSome(m: Move, mask: Mask, w: seq<nat>)
    requires |mask| <= |w| && Widths(w)
  {
    exists c :: Writes(m, mask, w, c)
  }

  lemma AppendWrites(table: seq<Move>, m: Move, mask: Mask, w: seq<nat>, c: nat)
    requires |mask| <= |w| && Widths(w) && WritesChannels(table, mask, w) && Writes(m, mask, w, c)
    ensures WritesChannels(table + [m], mask, w)
  {
    var longer := table + [m];
    forall k | 0 <= k < |longer| ensures WritesSome(longer[k], mask, w) {
      if k < |table| { assert longer[k] == table[k]; } else { assert Writes(longer[k], mask, w, c); }
    }
  }

  lemma {:induction false} ChannelsWrite(active: Mask, mask: Mask, w: seq<nat>, ts: bool, i: nat)
    requires Subset(mask, active) && i <= |mask| < |w| && Widths(w)
    ensures WritesChannels(Channels(active, mask, w, i).table, WithStamp(mask, ts), w)
  {
    if i > 0 {
      ChannelsWrite(active, mask, w, ts, i - 1);
      if mask[i - 1] {
        var b := Channels(active, mask, w, i - 1);
        ChannelsLaidOut(active, mask, w, i - 1);
        StampIsLast(mask, w, ts, i - 1);
        AppendWrites(b.table, Move(From(active, w, b, i - 1), PadTo(b.outLoc, w[i - 1]), w[i - 1]),
                     WithStamp(mask, ts), w, i - 1);
      }
    }
  }

  lemma TableWrites(active: Mask, mask: Mask, w: seq<nat>, ts: bool)
    requires Subset(mask, active) && |mask| < |w| && Widths(w)
    ensures WritesChannels(Table(active, mask, w, ts).table, WithStamp(mask, ts), w)
  {
    var b, len := Channels(active, mask, w, |mask|), w[|mask|];
    ChannelsWrite(active, mask, w, ts, |mask|);
    ChannelsLaidOut(active, mask, w, |mask|);
    StampIsLast(mask, w, ts, |mask|);
    if ts {
      AppendWrites(b.table, Move(PadTo(b.inLoc, len), PadTo(b.outLoc, len), len), WithStamp(mask, ts), w, |mask|);
    }
  }

  lemma SpliceMisses(b: Bytes, x: Bytes, to: nat, lo: nat, hi: nat)
    requires to + |x| <= |b| && lo <= hi <= |b| && (hi <= to || to + |x| <= lo)
    ensures (b[..to] + x + b[to + |x|..])[lo..hi] == b[lo..hi]
  {
  }

  /** The place of one channel and the gap before another do not overlap. */
  lemma GapIsApart(mask: Mask, w: seq<nat>, c: nat, k: nat)
    requires c < |mask| <= |w| && k < |mask| && Widths(w) && mask[c] && mask[k]
    ensures Start(mask, w, k) <= Start(mask, w, c) || Start(mask, w, c) + w[c] <= End(mask, w, k)
  {
    ChannelInside(mask, w, c);
    ChannelInside(mask, w, k);
    if c < k {
      EndGrows(mask, w, c + 1, k);
    } else if k < c {
      EndGrows(mask, w, k + 1, c);
    }
  }

  /** A copy into a channel's place leaves the gap before any channel alone. */
  lemma CopyMissesGap(mask: Mask, w: seq<nat>, bounce: Bytes, data: Bytes, m: Move, c: nat, k: nat)
    requires |mask| <= |w| && Widths(w) && Writes(m, mask, w, c) && k < |mask| && mask[k]
    requires m.from + m.length <= |data| && m.to + m.length <= |bounce| && Start(mask, w, k) <= |bounce|
    ensures Copy(bounce, data, m)[End(mask, w, k)..Start(mask, w, k)] == bounce[End(mask, w, k)..Start(mask, w, k)]
  {
    GapIsApart(mask, w, c, k);
    SpliceMisses(bounce, data[m.from..m.from + m.length], m.to, End(mask, w, k), Start(mask, w, k));
  }

  lemma {:induction false} SomeCopyMissesGap(mask: Mask, w: seq<nat>, bounce: Bytes, data: Bytes, m: Move, k: nat)
    requires |mask| <= |w| && Widths(w) && WritesSome(m, mask, w) && k < |mask| && mask[k]
    requires m.from + m.length <= |data| && m.to + m.length <= |bounce| && Start(mask, w, k) <= |bounce|
    ensures Copy(bounce, data, m)[End(mask, w, k)..Start(mask, w, k)] == bounce[End(mask, w, k)..Start(mask, w, k)]
  {
    var c :| Writes(m, mask, w, c);
    CopyMissesGap(mask, w, bounce, data, m, c, k);
  }

  lemma {:induction false} CopyAllMissesGap(table: seq<Move>, n: nat, mask: Mask, w: seq<nat>,
                                            bounce: Bytes, data: Bytes, k: nat)
    requires n <= |table| && |mask| <= |w| && Widths(w) && k < |mask| && mask[k] && Start(mask, w, k) <= |bounce|
    requires WritesChannels(table, mask, w) && InBounds(table, |bounce|, data)
    ensures CopyAll(table, n, data, bounce)[End(mask, w, k)..Start(mask, w, k)] ==
      bounce[End(mask, w, k)..Start(mask, w, k)]
  {
    if n > 0 {
      CopyAllMissesGap(table, n - 1, mask, w, bounce, data, k);
      assert WritesSome(table[n - 1], mask, w);
      SomeCopyMissesGap(mask, w, CopyAll(table, n - 1, data, bounce), data, table[n - 1], k);
    }
  }

  /** Whatever is demultiplexed, the bounce buffer stays zero between the channels. */
  lemma CopyAllKeepsPadding(table: seq<Move>, mask: Mask, w: seq<nat>, bounce: Bytes, data: Bytes)
    requires |mask| <= |w| && Widths(w)
    requires WritesChannels(table, mask, w) && InBounds(table, |bounce|, data) && Padded(bounce, mask, w)
    ensures Padded(CopyAll(table, |table|, data, bounce), mask, w)
  {
    var r := CopyAll(table, |table|, data, bounce);
    forall k | 0 <= k < |mask| && mask[k]
      ensures Start(mask, w, k) <= |r|
      ensures r[End(mask, w, k)..Start(mask, w, k)] == Zeros(Start(mask, w, k) - End(mask, w, k))
    {
      CopyAllMissesGap(table, |table|, mask, w, bounce, data, k);
    }
  }

  // ---------- every scan a buffer gets ----------

  /** The table a buffer has: none if it asks for all that is active. */
  function TableFor(active: Mask, mask: Mask, w: seq<nat>, ts: bool): seq<Move>
    requires Subset(mask, active) && |mask| < |w| && Widths(w)
  {
    if active == mask then [] else Table(active, mask, w, ts).table
  }

  /** iio_demux: without a table the scan goes through as it is. */
  function Demuxed(table: seq<Move>, data: Bytes, bounce: Bytes): Bytes
    requires InBounds(table, |bounce|, data)
  {
    if table == [] then data else CopyAll(table, |table|, data, bounce)
  }

  lemma {:induction false} PackDeliversAt(mask: Mask, w: seq<nat>, value: seq<Bytes>, k: nat)
    requires k < |mask| <= |w| && Widths(w) && Fits(value, w) && mask[k]
    ensures var all, at := Pack(mask, w, value, |mask|), Start(mask, w, k);
      at + w[k] <= |all| && all[at..at + w[k]] == value[k]
  {
    PackIsPrefix(mask, w, value, k + 1, |mask|);
    PackNext(mask, w, value, k);
    Behind(Pack(mask, w, value, |mask|), Pack(mask, w, value, k) + Zeros(Start(mask, w, k) - End(mask, w, k)), value[k]);
  }

  lemma Behind(all: Bytes, p: Bytes, v: Bytes)
    requires p + v <= all
    ensures |p| + |v| <= |all| && all[|p|..|p| + |v|] == v
  {
    assert all[..|p + v|] == p + v;
  }

  /** A packed scan has every channel in its place. */
  lemma {:induction false} PackDelivers(mask: Mask, w: seq<nat>, value: seq<Bytes>)
    requires |mask| <= |w| && Widths(w) && Fits(value, w)
    ensures Delivers(Pack(mask, w, value, |mask|), mask, w, value)
  {
    forall k | 0 <= k < |mask| && mask[k]
      ensures Start(mask, w, k) + w[k] <= |Pack(mask, w, value, |mask|)|
      ensures Pack(mask, w, value, |mask|)[Start(mask, w, k)..Start(mask, w, k) + w[k]] == value[k]
    {
      PackDeliversAt(mask, w, value, k);
    }
  }

  /** A scan passed through has the buffer's channels where the buffer's own layout puts them. */
  lemma PassedThrough(mask: Mask, w: seq<nat>, ts: bool, stamped: bool, value: seq<Bytes>, data: Bytes)
    requires |mask| < |w| && Widths(w) && Fits(value, w) && (ts ==> stamped)
    requires Delivers(data, WithStamp(mask, stamped), w, value)
    ensures Delivers(data, WithStamp(mask, ts), w, value)
  {
    forall k | 0 <= k < |mask| + 1 && WithStamp(mask, ts)[k]
      ensures var at := Start(WithStamp(mask, ts), w, k); at + w[k] <= |data| && data[at..at + w[k]] == value[k]
    {
      StampIsLast(mask, w, ts, k);
      StampIsLast(mask, w, stamped, k);
      assert WithStamp(mask, stamped)[k];
    }
  }

  /** A device whose scans come out right for this buffer. */
  ghost predicate ComesOutRight(active: Mask, mask: Mask, w: seq<nat>, ts: bool, stamped: bool)
    requires Subset(mask, active) && |mask| < |w| && Widths(w)
  {
    && (ts ==> stamped)
    && (active == mask || (SourcesRight(active, mask, w) && (ts ==> StampFollows(active, mask, w))))
  }

  /** A buffer without channels and timestamp has an empty table, and nothing to miss. */
  lemma EmptyTable(active: Mask, mask: Mask, w: seq<nat>, ts: bool, value: seq<Bytes>, data: Bytes)
    requires Subset(mask, active) && |mask| < |w| && Widths(w) && Fits(value, w)
    requires Table(active, mask, w, ts).table == []
    ensures Delivers(data, WithStamp(mask, ts), w, value)
  {
    forall k | 0 <= k < |mask| + 1 ensures !WithStamp(mask, ts)[k] {
      if k < |mask| { EmptyChannels(active, mask, w, |mask|, k); }
    }
  }

  lemma {:induction false} EmptyChannels(active: Mask, mask: Mask, w: seq<nat>, i: nat, k: nat)
    requires Subset(mask, active) && k < i <= |mask| <= |w| && Widths(w) && Channels(active, mask, w, i).table == []
    ensures !mask[k]
    decreases i
  {
    if k < i - 1 { EmptyChannels(active, mask, w, i - 1, k); }
  }

  /**
   Every scan comes out with the buffer's channels and timestamp in their places, byte for
   byte the buffer's own scan if there is a table; whatever the bounce buffer held before,
   and for equal masks too.
   */
  lemma EveryScanComesOut(active: Mask, mask: Mask, w: seq<nat>, ts: bool, stamped: bool,
                          value: seq<Bytes>, data: Bytes, bounce: Bytes)
    requires Subset(mask, active) && |mask| < |w| && Widths(w) && Fits(value, w)
    requires ComesOutRight(active, mask, w, ts, stamped)
    requires Delivers(data, WithStamp(active, stamped), w, value)
    requires active != mask ==> Padded(bounce, WithStamp(mask, ts), w) && |bounce| == ScanBytes(mask, w, ts)
    ensures var table := TableFor(active, mask, w, ts);
      && InBounds(table, |bounce|, data)
      && Delivers(Demuxed(table, data, bounce), WithStamp(mask, ts), w, value)
      && (table != [] ==> Demuxed(table, data, bounce) == Pack(WithStamp(mask, ts), w, value, |mask| + 1))
  {
    if active == mask {
      PassedThrough(mask, w, ts, stamped, value, data);
    } else {
      DemuxIsScan(active, mask, w, ts, stamped, value, data, bounce);
      PackDelivers(WithStamp(mask, ts), w, value);
      if Table(active, mask, w, ts).table == [] { EmptyTable(active, mask, w, ts, value, data); }
    }
  }
}
