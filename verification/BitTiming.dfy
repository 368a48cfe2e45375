/**
 CAN bit timing: choosing a prescaler and time segments for a bitrate, and checking
 user-chosen ones. Segment counts are C ints compared with unsigned limits.
 */
module BitTiming {

  datatype Limits = Limits(tseg1Min: nat, tseg1Max: nat, tseg2Min: nat, tseg2Max: nat,
                           sjwMax: nat, brpMin: nat, brpMax: nat, brpInc: nat)

  datatype Timing = Timing(bitrate: int, samplePoint: int, tq: int, propSeg: int,
                           phaseSeg1: int, phaseSeg2: int, sjw: int, brp: int)

  // DivideFault stands for the division by a zero prescaler: it returns no error code.
  datatype Error = EDOM | ERANGE | EINVAL | DivideFault

  datatype Result<T> = Ok(value: T) | Err(error: Error)

  const CAN_CALC_MAX_ERROR: nat := 50   // tenths of a percent
  const NO_ERROR_YET: nat := 1_000_000_000
  const NO_SPT_ERROR_YET: nat := 1000
  const NSEC_PER_SEC: nat := 1_000_000_000
  const U32: nat := 0x1_0000_0000

  /** A driver's limits: none is empty, and products of them and of 1000 stay within C's words. */
  ghost predicate Sane(l: Limits) {
    && l.tseg1Min <= l.tseg1Max && 1 <= l.tseg2Min <= l.tseg2Max
    && 1 <= l.brpMin && 1 <= l.brpInc
    && 1000 * (l.tseg1Max + l.tseg2Max + 1) < 0x8000_0000
    && l.brpMax * (l.tseg1Max + l.tseg2Max + 1) < U32
  }

  ghost predicate SegmentsInRange(l: Limits, tseg: int) {
    l.tseg1Min + l.tseg2Min <= tseg <= l.tseg1Max + l.tseg2Max
  }

  /** A C int as the unsigned value it is compared as. */
  function Unsigned(x: int): int { if x < 0 then x + U32 else x }

  /** The C int with the low 32 bits of x. */
  function Int(x: int): (r: int)
    ensures -0x8000_0000 <= r < 0x8000_0000 && (-0x8000_0000 <= x < 0x8000_0000 ==> r == x)
  {
    (x + 0x8000_0000) % U32 - 0x8000_0000
  }

  /** C's division by 1000 rounds towards zero. */
  function Thousandth(x: int): int { if x >= 0 then x / 1000 else -(-x / 1000) }

  function Abs(x: int): nat { if x < 0 then -x else x }

  // ---------- can_update_spt ----------

  datatype Split = Split(tseg1: int, tseg2: int, spt: int)

  /** The quanta up to the sample point; the product is a C int. */
  function UpToSample(samplPt: int, tseg: nat): int {
    Thousandth(Int(samplPt * (tseg + 1)))
  }

  function ClampTseg2(l: Limits, samplPt: int, tseg: nat): int {
    var raw := tseg + 1 - UpToSample(samplPt, tseg);
    var atLeast := if Unsigned(raw) < l.tseg2Min then l.tseg2Min else raw;
    if Unsigned(atLeast) > l.tseg2Max then l.tseg2Max else atLeast
  }

  function UpdateSpt(l: Limits, samplPt: int, tseg: nat): Split {
    var tseg2 := ClampTseg2(l, samplPt, tseg);
    var tseg1 := tseg - tseg2;
    var (t1, t2) := if Unsigned(tseg1) > l.tseg1Max then (l.tseg1Max, tseg - l.tseg1Max) else (tseg1, tseg2);
    Split(t1, t2, 1000 * (tseg + 1 - t2) / (tseg + 1))
  }

  /** The sample point comes before the first whole quantum of the bit, or beyond its end. */
  predicate Skewed(l: Limits, samplPt: int, tseg: nat) {
    tseg < l.tseg2Max && (UpToSample(samplPt, tseg) <= 0 || UpToSample(samplPt, tseg) >= tseg + 2)
  }

  /**
   The split always adds up and keeps tseg1 within 0..tseg1Max, whatever the sample point. It
   keeps tseg2 within its limits exactly when the sample point is not skewed for the segment
   count, or the segment count leaves tseg2Min beside tseg1Max.
   */
  lemma SplitLimits(l: Limits, samplPt: int, tseg: nat)
    requires Sane(l) && SegmentsInRange(l, tseg)
    ensures var s := UpdateSpt(l, samplPt, tseg);
      && s.tseg1 + s.tseg2 == tseg && 0 <= s.tseg1 <= l.tseg1Max
      && (l.tseg2Min <= s.tseg2 <= l.tseg2Max <==>
            !Skewed(l, samplPt, tseg) || tseg >= l.tseg1Max + l.tseg2Min)
  {
  }

  /** A split with tseg2 not negative puts the sample point inside the bit. */
  lemma SptInsideBit(l: Limits, samplPt: int, tseg: nat)
    requires UpdateSpt(l, samplPt, tseg).tseg2 <= tseg + 1
    ensures var s := UpdateSpt(l, samplPt, tseg);
      0 <= s.spt <= 1000 * (tseg + 1 - s.tseg2) && (s.tseg2 >= 0 ==> s.spt <= 1000)
  {
    DivBounds(tseg + 1 - UpdateSpt(l, samplPt, tseg).tseg2, tseg + 1);
  }

  lemma MulMono(a: nat, x: int, y: int)
    requires x <= y
    ensures a * x <= a * y
  {
  }

  lemma DivBounds(a: nat, b: nat)
    requires b > 0
    ensures 0 <= 1000 * a / b <= 1000 * a && (a <= b ==> 1000 * a / b <= 1000)
  {
    var q := 1000 * a / b;
    assert b * q <= 1000 * a;
    MulMono(q, 1, b);
    if a <= b && q > 1000 { MulMono(b, 1001, q); }
  }

  // ---------- the search ----------

  /** What a search is for: the clock, the wanted bitrate and sample point. */
  datatype Goal = Goal(l: Limits, freq: nat, bitrate: nat, samplPt: int)

  ghost predicate Searchable(g: Goal) { Sane(g.l) && 0 < g.bitrate < U32 }

  function First(g: Goal): int { (g.l.tseg1Max + g.l.tseg2Max) * 2 + 1 }

  function Last(g: Goal): int { (g.l.tseg1Min + g.l.tseg2Min) * 2 }

  /** Quanta per bit times bitrate, as the unsigned word the clock is divided by. */
  function Divisor(g: Goal, tseg: nat): nat {
    (1 + tseg) * g.bitrate % U32
  }

  /** The prescaler tried for x: x / 2 is the segment count, an odd x rounds up. */
  function Brp(g: Goal, x: nat): nat
    requires Searchable(g) && Divisor(g, x / 2) > 0
  {
    (g.freq / Divisor(g, x / 2) + x % 2) % U32 / g.l.brpInc * g.l.brpInc
  }

  function Rate(freq: nat, tseg: nat, brp: nat): nat
    requires brp > 0
  {
    freq / (brp * (1 + tseg))
  }

  /**
   One pair of segment count and prescaler; a pair that is not admissible is not looked at any
   further, and one with a wrapped divisor of zero ends everything.
   */
  datatype Candidate = Candidate(tseg: nat, brp: nat, admissible: bool, error: nat, sptError: nat, zero: bool)

  function CandidateAt(g: Goal, x: nat): Candidate
    requires Searchable(g)
  {
    var tseg := x / 2;
    if Divisor(g, tseg) == 0 then Candidate(tseg, 0, false, 0, 0, true)
    else
      var brp := Brp(g, x);
      var admissible := g.l.brpMin <= brp <= g.l.brpMax;
      Candidate(tseg, brp, admissible,
                if admissible then Abs(g.bitrate - Rate(g.freq, tseg, brp)) else 0,
                Abs(Int(g.samplPt - UpdateSpt(g.l, g.samplPt, tseg).spt)), false)
  }

  /** All candidates, in the order the loop visits them. */
  ghost function Candidates(g: Goal): (cs: seq<Candidate>)
    requires Searchable(g)
  {
    seq(First(g) - Last(g) + 1, i requires 0 <= i < First(g) - Last(g) + 1 => CandidateAt(g, First(g) - i))
  }

  datatype Choice = None | Chosen(tseg: nat, brp: nat)

  /** The search's variables: best_error, spt_error, and best_tseg with best_brp once set. */
  datatype Found = Found(bestError: nat, sptError: nat, best: Choice)

  /** The candidate meets the bitrate exactly. */
  predicate Exact(c: Candidate) { c.admissible && c.error == 0 }

  /** What the search knows after the first n candidates; w is the one it holds. */
  ghost predicate Explored(cs: seq<Candidate>, n: nat, f: Found, w: nat)
    requires n <= |cs|
  {
    && f.bestError <= NO_ERROR_YET && f.sptError <= NO_SPT_ERROR_YET
    && (forall i :: 0 <= i < n && cs[i].admissible ==> f.bestError <= cs[i].error)
    && (f.bestError == 0 ==> exists i :: 0 <= i < n && Exact(cs[i]))
    && (forall i :: 0 <= i < n && Exact(cs[i]) ==> f.sptError <= cs[i].sptError)
    && (f.best.Chosen? ==>
          && w < n && cs[w].admissible && f.best == Chosen(cs[w].tseg, cs[w].brp)
          && (f.bestError > 0 ==> cs[w].error == f.bestError)
          && (Exact(cs[w]) ==> f.sptError == cs[w].sptError))
    && (f.bestError > 0 ==> f.sptError == NO_SPT_ERROR_YET)
    && (f.best.None? && f.bestError > 0 ==>
          forall i :: 0 <= i < n && cs[i].admissible ==> cs[i].error > NO_ERROR_YET)
    && (f.best.None? && f.bestError > 0 ==> f.bestError == NO_ERROR_YET)
    && (f.sptError < NO_SPT_ERROR_YET ==> f.best.Chosen? && Exact(cs[w]))
    && (forall i :: 0 <= i < n && Exact(cs[i]) && cs[i].sptError <= NO_SPT_ERROR_YET ==>
          f.best.Chosen? && Exact(cs[w]))
    && (f.best.None? <==> NothingHeld(cs, n))
    && (f.best.Chosen? && !Exact(cs[w]) ==> FirstBest(cs, n, w))
  }

  /** Candidate w comes before the first exact one, and none of those there is closer to the bitrate. */
  ghost predicate FirstBest(cs: seq<Candidate>, n: nat, w: nat)
    requires n <= |cs|
  {
    && w < n && Early(cs, w)
    && forall i :: 0 <= i < n && Early(cs, i) ==> cs[w].error <= cs[i].error
  }

  ghost predicate Early(cs: seq<Candidate>, i: nat)
    requires i < |cs|
  {
    cs[i].admissible && !Exact(cs[i]) && !ExactBefore(cs, i)
  }

  /** None of the first n candidates is taken: the exact ones' sample points are too far off, and only those come first. */
  ghost predicate NothingHeld(cs: seq<Candidate>, n: nat)
    requires n <= |cs|
  {
    forall i :: 0 <= i < n ==> PassedOver(cs, i)
  }

  ghost predicate PassedOver(cs: seq<Candidate>, i: nat)
    requires i < |cs|
  {
    cs[i].admissible && cs[i].error <= NO_ERROR_YET ==>
      if cs[i].error == 0 then cs[i].sptError > NO_SPT_ERROR_YET else ExactBefore(cs, i)
  }

  ghost predicate ExactBefore(cs: seq<Candidate>, n: nat)
    requires n <= |cs|
  {
    exists j :: 0 <= j < n && Exact(cs[j])
  }

  lemma Skipped(cs: seq<Candidate>, n: nat, f: Found, w: nat)
    requires n < |cs| && Explored(cs, n, f, w)
    requires cs[n].admissible ==> cs[n].error > f.bestError
    ensures Explored(cs, n + 1, f, w)
  {
  }

  lemma WorseSamplePoint(cs: seq<Candidate>, n: nat, f: Found, w: nat)
    requires n < |cs| && Explored(cs, n, f, w)
    requires Exact(cs[n]) && cs[n].sptError > f.sptError
    ensures Explored(cs, n + 1, f.(bestError := 0), w)
  {
  }

  lemma Taken(cs: seq<Candidate>, n: nat, f: Found, w: nat)
    requires n < |cs| && Explored(cs, n, f, w)
    requires cs[n].admissible && cs[n].error <= f.bestError
    requires cs[n].error == 0 ==> cs[n].sptError <= f.sptError
    ensures var c := cs[n];
      Explored(cs, n + 1, Found(c.error, if c.error == 0 then c.sptError else f.sptError,
                                Chosen(c.tseg, c.brp)), n)
  {
    assert cs[n].error > 0 ==> !ExactBefore(cs, n);
    assert !PassedOver(cs, n);
  }

  /** Nothing can beat such a candidate: the search ends with the first one. */
  predicate Perfect(c: Candidate) { Exact(c) && c.sptError == 0 }

  /** The loop body: the three ways to pass over a candidate, or taking it; stop says nothing can beat it. */
  method Consider(c: Candidate, f: Found, ghost cs: seq<Candidate>, ghost n: nat, ghost w: nat)
    returns (f': Found, stop: bool, ghost w': nat)
    requires n < |cs| && c == cs[n] && Explored(cs, n, f, w)
    ensures stop == Perfect(c)
    ensures Explored(cs, if stop then |cs| else n + 1, f', w')
  {
    f', stop, w' := f, false, w;
    if !c.admissible || c.error > f.bestError {
      Skipped(cs, n, f, w);
      return;
    }
    f' := f'.(bestError := c.error);
    var error := c.error;
    if error == 0 {
      error := c.sptError;
      if error > f'.sptError {
        WorseSamplePoint(cs, n, f, w);
        return;
      }
      f' := f'.(sptError := error);
    }
    f' := f'.(best := Chosen(c.tseg, c.brp));
    Taken(cs, n, f, w);
    w', stop := n, error == 0;
  }

  lemma NothingExplored(cs: seq<Candidate>)
    ensures Explored(cs, 0, Found(NO_ERROR_YET, NO_SPT_ERROR_YET, None), 0)
  {
  }

  /** The search comes to a zero divisor before a perfect candidate ends it. */
  ghost predicate DividesByZero(cs: seq<Candidate>) {
    exists k :: 0 <= k < |cs| && cs[k].zero && NonePerfect(cs, k)
  }

  ghost predicate NonePerfect(cs: seq<Candidate>, n: nat)
    requires n <= |cs|
  {
    forall j :: 0 <= j < n ==> !Perfect(cs[j])
  }

  ghost predicate NoneZero(cs: seq<Candidate>, n: nat)
    requires n <= |cs|
  {
    forall j :: 0 <= j < n ==> !cs[j].zero
  }

  /** What is known of zero divisors after the first n candidates; stop says that the last one was perfect. */
  ghost predicate Undivided(cs: seq<Candidate>, n: nat, stop: bool)
    requires n <= |cs|
  {
    if stop then !DividesByZero(cs) else NonePerfect(cs, n) && NoneZero(cs, n)
  }

  lemma StaysUndivided(cs: seq<Candidate>, n: nat)
    requires n < |cs| && Undivided(cs, n, false) && !cs[n].zero
    ensures if Perfect(cs[n]) then !DividesByZero(cs) else Undivided(cs, n + 1, false)
  {
  }

  lemma ZeroMet(cs: seq<Candidate>, n: nat)
    requires n < |cs| && Undivided(cs, n, false) && cs[n].zero
    ensures DividesByZero(cs)
  {
  }

  lemma NoZeroMet(cs: seq<Candidate>, stop: bool)
    requires Undivided(cs, |cs|, stop)
    ensures !DividesByZero(cs)
  {
  }

  /** zero says that the search divides by zero on its way; then it finds nothing. */
  method Search(g: Goal) returns (f: Found, zero: bool, ghost w: nat)
    requires Searchable(g)
    ensures zero <==> DividesByZero(Candidates(g))
    ensures !zero ==> Explored(Candidates(g), |Candidates(g)|, f, w)
  {
    f, zero, w := Found(NO_ERROR_YET, NO_SPT_ERROR_YET, None), false, 0;
    var x, stop := First(g), false;
    ghost var cs, n := Candidates(g), 0;
    NothingExplored(cs);
    while x >= Last(g) && !stop
      invariant x >= Last(g) - 1 && First(g) - x <= |cs|
      invariant n == if stop then |cs| else First(g) - x
      invariant Explored(cs, n, f, w)
      invariant Undivided(cs, n, stop)
      decreases x, !stop
    {
      CandidateIndex(g, x);
      var c := CandidateAt(g, x);
      if c.zero {
        ZeroMet(cs, n);
        return f, true, w;
      }
      StaysUndivided(cs, n);
      f, stop, w := Consider(c, f, cs, n, w);
      x := x - 1;
      n := if stop then |cs| else n + 1;
    }
    NoZeroMet(cs, stop);
  }

  // ---------- what the search finds ----------

  /** No admissible candidate has a smaller bitrate error, nor, if w is exact, a better sample point. */
  ghost predicate Optimal(cs: seq<Candidate>, w: nat) {
    && w < |cs| && cs[w].admissible
    && (forall i :: 0 <= i < |cs| && cs[i].admissible ==> cs[w].error <= cs[i].error)
    && (Exact(cs[w]) ==> forall i :: 0 <= i < |cs| && Exact(cs[i]) ==> cs[w].sptError <= cs[i].sptError)
  }

  /**
   The search is lexicographically optimal, despite its early end and the candidates that
   only lower best_error, exactly when there is no exact candidate or one of them has
   a sample point error within the initial bound.
   */
  lemma SearchIsOptimal(cs: seq<Candidate>, f: Found, w: nat)
    requires Explored(cs, |cs|, f, w)
    requires exists i :: 0 <= i < |cs| && cs[i].admissible && cs[i].error <= NO_ERROR_YET
    ensures (f.best.Chosen? && Optimal(cs, w)) <==>
      ((forall i :: 0 <= i < |cs| ==> !Exact(cs[i])) ||
       (exists i :: 0 <= i < |cs| && Exact(cs[i]) && cs[i].sptError <= NO_SPT_ERROR_YET))
  {
  }

  /** No segment count in range is skewed for the sample point. */
  predicate NeverSkewed(l: Limits, samplPt: int) {
    && 0 <= samplPt <= 1000
    && (samplPt * (l.tseg1Min + l.tseg2Min + 1) >= 1000 || l.tseg1Min + l.tseg2Min >= l.tseg2Max)
  }

  lemma SampleInside(samplPt: nat, tseg: nat)
    requires samplPt * (tseg + 1) <= 1000 * (tseg + 1) < 0x8000_0000
    ensures 0 <= UpToSample(samplPt, tseg) <= tseg + 1
    ensures samplPt * (tseg + 1) >= 1000 ==> UpToSample(samplPt, tseg) >= 1
  {
    var p := samplPt * (tseg + 1);
    assert Int(p) == p;
  }

  lemma NeverSkewedMeans(l: Limits, samplPt: nat, tseg: nat)
    requires Sane(l) && NeverSkewed(l, samplPt) && SegmentsInRange(l, tseg)
    ensures !Skewed(l, samplPt, tseg)
  {
    MulMono(samplPt, l.tseg1Min + l.tseg2Min + 1, tseg + 1);
    MulMono(tseg + 1, samplPt, 1000);
    SampleInside(samplPt, tseg);
  }

  /** For such a sample point every candidate's sample point error is within the bound. */
  lemma SampleErrorsBounded(g: Goal, x: nat)
    requires Searchable(g) && NeverSkewed(g.l, g.samplPt) && Last(g) <= x <= First(g)
    ensures CandidateAt(g, x).sptError <= NO_SPT_ERROR_YET
  {
    SplitsInside(g.l, g.samplPt, x / 2);
  }

  lemma SplitsInside(l: Limits, samplPt: nat, tseg: nat)
    requires Sane(l) && NeverSkewed(l, samplPt) && SegmentsInRange(l, tseg)
    ensures var s := UpdateSpt(l, samplPt, tseg);
      l.tseg2Min <= s.tseg2 <= l.tseg2Max && 0 <= s.spt <= 1000
  {
    NeverSkewedMeans(l, samplPt, tseg);
    SplitLimits(l, samplPt, tseg);
    SptInsideBit(l, samplPt, tseg);
  }

  lemma DivMono(a: nat, x: nat, y: nat)
    requires 0 < x <= y
    ensures a / y <= a / x
  {
    var q := a / y;
    MulMono(q, x, y);
    assert q * x <= a;
    DivAtLeast(a, x, q);
  }

  lemma DivAtLeast(a: nat, b: nat, q: nat)
    requires b > 0 && q * b <= a
    ensures a / b >= q
  {
    if a / b < q { MulMono(b, a / b + 1, q); }
  }

  lemma DivBelow(a: nat, b: nat, q: nat)
    requires b > 0 && a < q * b
    ensures a / b < q
  {
    if a / b >= q { MulMono(b, q, a / b); }
  }

  lemma Reassociate(a: nat, b: nat, c: nat)
    ensures a * (b * c) == b * (c * a)
  {
  }

  lemma DivExact(a: nat, b: nat)
    requires b > 0
    ensures a / b * b <= a < (a / b + 1) * b
  {
  }

  lemma RoundDownIsClosest(freq: nat, t: nat, bitrate: nat, ideal: nat, brp: nat)
    requires t > 0 && bitrate > 0 && ideal == freq / (t * bitrate) && 0 < brp <= ideal
    ensures bitrate <= freq / (ideal * t) <= freq / (brp * t)
  {
    MulMono(t, brp, ideal);
    DivMono(freq, brp * t, ideal * t);
    Reassociate(bitrate, ideal, t);
    DivExact(freq, t * bitrate);
    DivAtLeast(freq, ideal * t, bitrate);
  }

  lemma RoundUpIsClosest(freq: nat, t: nat, bitrate: nat, ideal: nat, brp: nat)
    requires t > 0 && bitrate > 0 && ideal == freq / (t * bitrate) && ideal < brp
    ensures freq / (brp * t) <= freq / ((ideal + 1) * t) < bitrate
  {
    MulMono(t, ideal + 1, brp);
    DivMono(freq, (ideal + 1) * t, brp * t);
    Reassociate(bitrate, ideal + 1, t);
    DivExact(freq, t * bitrate);
    DivBelow(freq, (ideal + 1) * t, bitrate);
  }

  lemma DivisorFits(g: Goal, tseg: nat)
    requires g.bitrate > 0 && (1 + tseg) * g.bitrate < U32
    ensures Divisor(g, tseg) == (1 + tseg) * g.bitrate > 0
  {
    MulMono(g.bitrate, 1, 1 + tseg);
  }

  lemma BrpFor(g: Goal, x: nat, brp: nat)
    requires Searchable(g) && g.l.brpInc == 1 && Divisor(g, x / 2) > 0
    requires brp == g.freq / Divisor(g, x / 2) + x % 2 < U32
    ensures Brp(g, x) == brp
  {
  }

  /** The candidate for a segment count that rounds the ideal prescaler down (0) or up (1). */
  lemma CandidateFor(g: Goal, tseg: nat, up: nat, brp: nat)
    requires Searchable(g) && g.l.brpInc == 1 && up <= 1
    requires (1 + tseg) * g.bitrate < U32 && brp == g.freq / ((1 + tseg) * g.bitrate) + up < U32
    ensures var c := CandidateAt(g, 2 * tseg + up);
      && c.tseg == tseg && c.brp == brp && !c.zero
      && c.sptError == Abs(Int(g.samplPt - UpdateSpt(g.l, g.samplPt, tseg).spt))
      && (c.admissible <==> g.l.brpMin <= brp <= g.l.brpMax)
      && (c.admissible ==> c.error == Abs(g.bitrate - Rate(g.freq, tseg, brp)))
  {
    var x := 2 * tseg + up;
    assert x / 2 == tseg && x % 2 == up;
    DivisorFits(g, tseg);
    BrpFor(g, x, brp);
  }

  /** Of the two roundings, the one on the prescaler's side is at least as close. */
  lemma RoundingIsCloser(freq: nat, tseg: nat, bitrate: nat, ideal: nat, brp: nat, near: nat)
    requires bitrate > 0 && ideal == freq / ((1 + tseg) * bitrate) && brp > 0
    requires near == if brp <= ideal then ideal else ideal + 1
    ensures near > 0 && Abs(bitrate - Rate(freq, tseg, near)) <= Abs(bitrate - Rate(freq, tseg, brp))
  {
    if brp <= ideal {
      RoundDownIsClosest(freq, 1 + tseg, bitrate, ideal, brp);
    } else {
      RoundUpIsClosest(freq, 1 + tseg, bitrate, ideal, brp);
    }
  }

  /** The divisor does not wrap, and the limits bracket the ideal prescaler. */
  predicate Bracketed(g: Goal, tseg: nat)
    requires g.bitrate > 0
  {
    var ideal := g.freq / ((1 + tseg) * g.bitrate);
    (1 + tseg) * g.bitrate < U32 && g.l.brpMin <= ideal + 1 && ideal <= g.l.brpMax
  }

  lemma SmallPrescaler(l: Limits)
    requires Sane(l)
    ensures l.brpMax + 1 < U32
  {
    MulMono(l.brpMax, 2, l.tseg1Max + l.tseg2Max + 1);
  }

  /**
   With every prescaler allowed, rounding the ideal prescaler down and up is enough: no
   prescaler within the limits comes closer to the bitrate for the same segment count.
   */
  lemma TwoPrescalersSuffice(g: Goal, tseg: nat, brp: nat) returns (up: nat)
    requires Searchable(g) && g.l.brpInc == 1 && g.l.brpMin <= brp <= g.l.brpMax && Bracketed(g, tseg)
    ensures up <= 1
    ensures var c := CandidateAt(g, 2 * tseg + up);
      c.tseg == tseg && c.admissible && c.error <= Abs(g.bitrate - Rate(g.freq, tseg, brp))
  {
    var ideal := g.freq / ((1 + tseg) * g.bitrate);
    up := if brp <= ideal then 0 else 1;
    var near := ideal + up;
    SmallPrescaler(g.l);
    CandidateFor(g, tseg, up, near);
    RoundingIsCloser(g.freq, tseg, g.bitrate, ideal, brp, near);
  }

  /**
   Global optimality: if all prescalers are allowed and their range brackets the ideal
   one, the chosen pair has the least bitrate error of all pairs of a segment count
   and a prescaler within the limits, not just of those the loop tries.
   */
  lemma SearchIsGlobal(g: Goal, f: Found, w: nat, tseg: nat, brp: nat)
    requires Searchable(g) && Explored(Candidates(g), |Candidates(g)|, f, w)
    requires f.best.Chosen? && Optimal(Candidates(g), w)
    requires g.l.brpInc == 1 && g.l.brpMin <= brp <= g.l.brpMax
    requires SegmentsInRange(g.l, tseg) && Bracketed(g, tseg)
    ensures f.best.brp > 0
    ensures Abs(g.bitrate - Rate(g.freq, f.best.tseg, f.best.brp)) <= Abs(g.bitrate - Rate(g.freq, tseg, brp))
  {
    HeldCandidate(g, w);
    OptimalIsGlobal(g, w, tseg, brp);
  }

  lemma OptimalIsGlobal(g: Goal, w: nat, tseg: nat, brp: nat)
    requires Searchable(g) && Optimal(Candidates(g), w)
    requires g.l.brpInc == 1 && g.l.brpMin <= brp <= g.l.brpMax
    requires SegmentsInRange(g.l, tseg) && Bracketed(g, tseg)
    ensures Candidates(g)[w].error <= Abs(g.bitrate - Rate(g.freq, tseg, brp))
  {
    var up := TwoPrescalersSuffice(g, tseg, brp);
    CandidateIndex(g, 2 * tseg + up);
  }

  lemma CandidateIndex(g: Goal, x: int)
    requires Searchable(g) && Last(g) <= x <= First(g)
    ensures 0 <= First(g) - x < |Candidates(g)| && Candidates(g)[First(g) - x] == CandidateAt(g, x)
  {
  }

  lemma HeldCandidate(g: Goal, w: nat)
    requires Searchable(g) && w < |Candidates(g)| && Candidates(g)[w].admissible
    ensures var c := Candidates(g)[w];
      c.brp > 0 && c.error == Abs(g.bitrate - Rate(g.freq, c.tseg, c.brp))
  {
    CandidateIndex(g, First(g) - w);
  }
}
