/** Where the channels of a scan lie: each at the next multiple of its own width. */
module ScanLayout {
  import opened Words

  // A bitmap over the scan indices.
  type Mask = seq<bool>

  /** A channel's width in bytes: its storage bits, at most 255, are a power of two of whole bytes. */
  predicate IsWidth(len: nat) { len == 1 || len == 2 || len == 4 || len == 8 || len == 16 }

  /** Round x up to a multiple of len, as the demux code does it. */
  function PadTo(x: nat, len: nat): (r: nat)
    requires IsWidth(len)
    ensures x <= r < x + len && r % len == 0
  {
    if x % len != 0 then x + (len - x % len) else x
  }

  // ---------- multiples ----------

  // A number is a multiple of len if it is len times its quotient.
  function Quotient(x: nat, len: nat): nat
    requires len > 0
  {
    x / len
  }

  lemma Exact(x: nat, len: nat)
    requires len > 0 && x % len == 0
    ensures x == len * Quotient(x, len)
  {
  }

  lemma TimesWidth(len: nat, q: nat)
    requires len > 0
    ensures len * q % len == 0
  {
    var r := len * q % len;
    var d := q - len * q / len;
    assert len * d == r;
  }

  lemma AddMultiples(a: nat, b: nat, len: nat)
    requires len > 0 && a % len == 0 && b % len == 0
    ensures (a + b) % len == 0
  {
    Exact(a, len);
    Exact(b, len);
    TimesWidth(len, Quotient(a, len) + Quotient(b, len));
    assert a + b == len * (Quotient(a, len) + Quotient(b, len));
  }

  lemma TimesMono(len: nat, p: int, q: int)
    requires p <= q
    ensures len * p <= len * q
  {
  }

  /** Two different multiples lie at least one width apart. */
  lemma Gap(a: nat, b: nat, len: nat)
    requires len > 0 && a % len == 0 && b % len == 0 && a < b
    ensures a + len <= b
  {
    var p, q := Quotient(a, len), Quotient(b, len);
    Exact(a, len);
    Exact(b, len);
    if p < q {
      TimesMono(len, p + 1, q);
      assert len * (p + 1) == len * p + len;
    } else {
      TimesMono(len, q, p);
    }
  }

  // ---------- the ALIGN macro ----------

  function Pow2(k: nat): (r: nat)
    ensures r > 0
  {
    if k == 0 then 1 else 2 * Pow2(k - 1)
  }

  /** The number a word stands for, by its bits below k. */
  function Value(w: Word, k: nat): (r: nat)
    ensures r < Pow2(k)
  {
    if k == 0 then 0 else Value(w, k - 1) + if k - 1 in w then Pow2(k - 1) else 0
  }

  /** The low bits of a word and the rest make up its number. */
  lemma {:induction false} ClearedValue(w: Word, j: nat, k: nat)
    requires j <= k
    ensures Value(w, k) == Value(w - Bits(0, j), k) + Value(w, j)
  {
    if k == j { NoValue(w - Bits(0, j), j); } else { ClearedValue(w, j, k - 1); }
  }

  lemma {:induction false} NoValue(w: Word, k: nat)
    requires forall i :: 0 <= i < k ==> i !in w
    ensures Value(w, k) == 0
  {
    if k > 0 { NoValue(w, k - 1); }
  }

  /** A width is a power of two. */
  lemma SmallPowers(j: nat)
    requires j <= 4
    ensures IsWidth(Pow2(j))
  {
    assert Pow2(0) == 1;
    assert Pow2(1) == 2;
    assert Pow2(2) == 4;
    assert Pow2(3) == 8;
    assert Pow2(4) == 16;
  }

  lemma {:induction false} PowerIsMultiple(i: nat, j: nat)
    requires j <= i && IsWidth(Pow2(j))
    ensures Pow2(i) % Pow2(j) == 0
    decreases i
  {
    if i == j {
      SelfMultiple(Pow2(j));
    } else {
      PowerIsMultiple(i - 1, j);
      AddMultiples(Pow2(i - 1), Pow2(i - 1), Pow2(j));
    }
  }

  lemma SelfMultiple(len: nat)
    requires IsWidth(len)
    ensures len % len == 0
  {
  }

  lemma {:induction false} HighBitsAreMultiple(w: Word, j: nat, k: nat)
    requires j <= 4 && forall i :: 0 <= i < j ==> i !in w
    ensures IsWidth(Pow2(j)) && Value(w, k) % Pow2(j) == 0
  {
    SmallPowers(j);
    if k > 0 {
      HighBitsAreMultiple(w, j, k - 1);
      if k - 1 in w {
        PowerIsMultiple(k - 1, j);
        AddMultiples(Value(w, k - 1), Pow2(k - 1), Pow2(j));
      }
    }
  }

  /**
   ALIGN(x, len) adds len - 1 and clears those bits. As long as the sum fits a 32-bit word,
   that rounds up exactly as the remainder tests of the demux code do.
   */
  lemma AlignIsPadTo(sum: Word, x: nat, j: nat)
    requires j <= 4 && Value(sum, 32) == x + Pow2(j) - 1
    ensures IsWidth(Pow2(j)) && Value(sum - Bits(0, j), 32) == PadTo(x, Pow2(j))
  {
    ClearedValue(sum, j, 32);
    HighBitsAreMultiple(sum - Bits(0, j), j, 32);
    PadUnique(x, Value(sum - Bits(0, j), 32), Pow2(j));
  }

  lemma HalfIsMultiple(x: nat, w: nat)
    requires (w == 2 || w == 4 || w == 8 || w == 16) && x % w == 0
    ensures IsWidth(w / 2) && x % (w / 2) == 0
  {
    if w == 4 {
      assert x == 2 * (x / 4 * 2);
    } else if w == 8 {
      assert x == 4 * (x / 8 * 2);
    } else if w == 16 {
      assert x == 8 * (x / 16 * 2);
    }
  }

  /** Multiples of a wider channel's width are multiples of a narrower one's. */
  lemma {:induction false} WiderIsMultiple(x: nat, v: nat, w: nat)
    requires IsWidth(v) && IsWidth(w) && v <= w && x % w == 0
    ensures x % v == 0
    decreases w
  {
    if v < w {
      HalfIsMultiple(x, w);
      WiderIsMultiple(x, v, w / 2);
    }
  }

  /** Padding reaches the least multiple that is not below. */
  lemma PadIsLeast(x: nat, m: nat, len: nat)
    requires IsWidth(len) && x <= m && m % len == 0
    ensures PadTo(x, len) <= m
  {
    var r := PadTo(x, len);
    if m < r { Gap(m, r, len); }
  }

  lemma PadUnique(x: nat, m: nat, len: nat)
    requires IsWidth(len) && x <= m < x + len && m % len == 0
    ensures PadTo(x, len) == m
  {
    var r := PadTo(x, len);
    if m < r { Gap(m, r, len); } else if r < m { Gap(r, m, len); }
  }

  // ---------- scans ----------

  predicate Widths(w: seq<nat>) { forall k :: 0 <= k < |w| ==> IsWidth(w[k]) }

  /** iio_compute_scan_bytes for the channels below i. */
  function End(mask: Mask, w: seq<nat>, i: nat): nat
    requires i <= |mask| <= |w| && Widths(w)
  {
    if i == 0 then 0
    else if mask[i - 1] then PadTo(End(mask, w, i - 1), w[i - 1]) + w[i - 1]
    else End(mask, w, i - 1)
  }

  /** Where channel i starts. */
  function Start(mask: Mask, w: seq<nat>, i: nat): nat
    requires i < |mask| <= |w| && Widths(w)
  {
    PadTo(End(mask, w, i), w[i])
  }

  lemma {:induction false} EndGrows(mask: Mask, w: seq<nat>, i: nat, j: nat)
    requires i <= j <= |mask| <= |w| && Widths(w)
    ensures End(mask, w, i) <= End(mask, w, j)
    decreases j
  {
    if i < j { EndGrows(mask, w, i, j - 1); }
  }

  lemma {:induction false} EndSkips(mask: Mask, w: seq<nat>, i: nat, j: nat)
    requires i <= j <= |mask| <= |w| && Widths(w) && forall k :: i <= k < j ==> !mask[k]
    ensures End(mask, w, i) == End(mask, w, j)
    decreases j
  {
    if i < j { EndSkips(mask, w, i, j - 1); }
  }

  /** The first set bit at or above i, or the length of the map. */
  function NextBit(mask: Mask, i: nat): (j: nat)
    requires i <= |mask|
    ensures i <= j <= |mask|
    ensures j < |mask| ==> mask[j]
    ensures forall k :: i <= k < j ==> !mask[k]
    decreases |mask| - i
  {
    if i == |mask| || mask[i] then i else NextBit(mask, i + 1)
  }

  predicate Subset(a: Mask, b: Mask) {
    |a| == |b| && forall k :: 0 <= k < |a| && a[k] ==> b[k]
  }
}
