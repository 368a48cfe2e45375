/** can_calc_bittiming and can_fixup_bittiming, and how the second undoes the first. */
module BitTimingCalc {
  import opened BitTiming

  /** The fields of a timing are unsigned 32-bit words. */
  predicate Words(bt: Timing) {
    && 0 <= bt.bitrate < U32 && 0 <= bt.samplePoint < U32 && 0 <= bt.tq < U32 && 0 <= bt.propSeg < U32
    && 0 <= bt.phaseSeg1 < U32 && 0 <= bt.phaseSeg2 < U32 && 0 <= bt.sjw < U32 && 0 <= bt.brp < U32
  }

  /** CiA recommendation, for a request that leaves the sample point open. */
  function SamplePoint(bt: Timing): int {
    if bt.samplePoint != 0 then Int(bt.samplePoint)
    else if bt.bitrate > 800_000 then 750
    else if bt.bitrate > 500_000 then 800
    else 875
  }

  function SjwFor(l: Limits, sjw: int, tseg2: int): int {
    if sjw == 0 || l.sjwMax == 0 then 1
    else
      var atMost := if sjw > l.sjwMax then l.sjwMax else sjw;
      if Unsigned(tseg2) < atMost then Unsigned(tseg2) else atMost
  }

  /** The bitrate of a prescaler and a number of quanta besides the synchronisation quantum. */
  function BitrateOf(freq: nat, brp: nat, segments: nat): (r: nat)
    requires brp > 0
    ensures r <= freq
  {
    QuotientBelow(freq, brp, segments + 1);
    freq / (brp * (segments + 1))
  }

  /** The quantum in whole nanoseconds, kept in 32 bits. */
  function Quantum(freq: nat, brp: nat): (tq: nat)
    requires freq > 0
    ensures tq < U32 && freq * tq <= brp * NSEC_PER_SEC
  {
    var exact := brp * NSEC_PER_SEC / freq;
    MulMono(freq, exact % U32, exact);
    exact % U32
  }

  /** The timing for a split of the bit time and a prescaler. */
  function TimingFor(l: Limits, freq: nat, sjw: int, s: Split, brp: nat): Timing
    requires freq > 0 && brp > 0 && s.tseg1 + s.tseg2 >= 0
  {
    var propSeg := s.tseg1 / 2;
    Timing(BitrateOf(freq, brp, s.tseg1 + s.tseg2), s.spt, Quantum(freq, brp),
           propSeg, s.tseg1 - propSeg, Unsigned(s.tseg2), SjwFor(l, sjw, s.tseg2), brp)
  }

  function Finish(l: Limits, freq: nat, bt: Timing, samplPt: int, tseg: nat, brp: nat): Timing
    requires freq > 0 && brp > 0
  {
    TimingFor(l, freq, bt.sjw, UpdateSpt(l, samplPt, tseg), brp)
  }

  function PracticableBrp(l: Limits, freq: nat, tq: nat): nat
    requires l.brpInc > 0
  {
    var brp64 := freq * tq;
    var brp64 := if l.brpInc > 1 then brp64 / l.brpInc else brp64;
    var brp64 := (brp64 + 500_000_000 - 1) / NSEC_PER_SEC;
    if l.brpInc > 1 then brp64 * l.brpInc else brp64
  }

  /** The segments are added as 32-bit words. */
  function Fixup(l: Limits, freq: nat, bt: Timing): Result<Timing>
    requires Sane(l) && Words(bt)
  {
    var tseg1 := (bt.propSeg + bt.phaseSeg1) % U32;
    var sjw := if bt.sjw == 0 then 1 else bt.sjw;
    if sjw > l.sjwMax || tseg1 < l.tseg1Min || tseg1 > l.tseg1Max ||
       bt.phaseSeg2 < l.tseg2Min || bt.phaseSeg2 > l.tseg2Max
    then Err(ERANGE)
    else
      var brp := PracticableBrp(l, freq, bt.tq) % U32;
      if brp < l.brpMin || brp > l.brpMax then Err(EINVAL)
      else
        var alltseg := (bt.propSeg + bt.phaseSeg1 + bt.phaseSeg2 + 1) % U32;
        WrappedSum(bt.propSeg + bt.phaseSeg1, bt.phaseSeg2 + 1);
        Ok(bt.(sjw := sjw, brp := brp, bitrate := BitrateOf(freq, brp, alltseg - 1),
               samplePoint := (tseg1 + 1) * 1000 / alltseg))
  }

  lemma WrappedSum(a: nat, b: nat)
    requires a % U32 + b < U32
    ensures (a + b) % U32 == a % U32 + b
  {
  }

  /** Some search result can be held: nothing is exact, or an exact candidate's sample point is near enough. */
  ghost predicate Decidable(cs: seq<Candidate>) {
    || (forall i :: 0 <= i < |cs| ==> !Exact(cs[i]))
    || (exists i :: 0 <= i < |cs| && Exact(cs[i]) && cs[i].sptError <= NO_SPT_ERROR_YET)
  }

  predicate Tolerable(bitrate: nat, error: nat)
    requires bitrate > 0
  {
    error * 1000 / bitrate <= CAN_CALC_MAX_ERROR
  }

  ghost predicate SomeTolerable(cs: seq<Candidate>, bitrate: nat)
    requires bitrate > 0
  {
    exists i :: 0 <= i < |cs| && cs[i].admissible && Tolerable(bitrate, cs[i].error)
  }

  lemma ToleranceMonotone(bitrate: nat, e: nat, e': nat)
    requires bitrate > 0 && e <= e' && Tolerable(bitrate, e')
    ensures Tolerable(bitrate, e)
  {
    DivAtLeast(e' * 1000, bitrate, e * 1000 / bitrate);
  }

  /** What the error check after the search amounts to. */
  lemma CheckDecides(cs: seq<Candidate>, f: Found, w: nat, bitrate: nat)
    requires Explored(cs, |cs|, f, w) && 0 < bitrate < U32
    ensures Tolerable(bitrate, f.bestError) && f.best.Chosen? ==> SomeTolerable(cs, bitrate)
    ensures Decidable(cs) && Tolerable(bitrate, f.bestError) ==> f.best.Chosen? && Optimal(cs, w)
    ensures SomeTolerable(cs, bitrate) ==> Tolerable(bitrate, f.bestError)
  {
    if SomeTolerable(cs, bitrate) {
      var i :| 0 <= i < |cs| && cs[i].admissible && Tolerable(bitrate, cs[i].error);
      ToleranceMonotone(bitrate, f.bestError, cs[i].error);
    }
    if Tolerable(bitrate, f.bestError) {
      if f.bestError == 0 {
        var i :| 0 <= i < |cs| && Exact(cs[i]);
        assert cs[i].admissible && Tolerable(bitrate, cs[i].error);
      } else if f.best.Chosen? {
        assert Tolerable(bitrate, cs[w].error);
      }
      if f.bestError == NO_ERROR_YET { DivAtLeast(f.bestError * 1000, bitrate, 51); }
      if Decidable(cs) { SearchIsOptimal(cs, f, w); }
    }
  }

  /**
   The bitrate can be met exactly, but nothing is held: every exact candidate's sample point
   is too far off, and no other candidate comes before the first of them. The prescaler
   then stays zero and the code divides by it.
   */
  ghost predicate Faults(cs: seq<Candidate>) {
    ExactBefore(cs, |cs|) && NothingHeld(cs, |cs|)
  }

  /**
   Every exact candidate's sample point is too far off, and another candidate is held when the
   first of them comes: that one sets the error to zero, so that the check is skipped.
   */
  ghost predicate Unchecked(cs: seq<Candidate>) { !Decidable(cs) && !Faults(cs) }

  /** A sample point that skews no segment count always decides, whatever the clock and the bitrate. */
  lemma NeverSkewedNeverFaults(g: Goal)
    requires Searchable(g) && NeverSkewed(g.l, g.samplPt)
    ensures !Faults(Candidates(g)) && Decidable(Candidates(g))
  {
    var cs := Candidates(g);
    forall i | 0 <= i < |cs| ensures cs[i].sptError <= NO_SPT_ERROR_YET {
      SampleErrorsBounded(g, First(g) - i);
    }
    if ExactBefore(cs, |cs|) {
      var j :| 0 <= j < |cs| && Exact(cs[j]);
      assert !PassedOver(cs, j);
    }
  }

  lemma ZeroMeans(g: Goal, i: nat)
    requires Searchable(g) && i < |Candidates(g)|
    ensures First(g) - i >= 0
    ensures Candidates(g)[i].zero <==> Divisor(g, (First(g) - i) / 2) == 0
  {
    CandidateIndex(g, First(g) - i);
  }

  lemma SmallDivisorIsNotZero(g: Goal, tseg: nat, most: nat)
    requires Searchable(g) && tseg < most && most * g.bitrate < U32
    ensures Divisor(g, tseg) > 0
  {
    MulMono(g.bitrate, 1 + tseg, most);
    DivisorFits(g, tseg);
  }

  /** No divisor wraps to zero when the bitrate times the largest number of quanta fits a word. */
  lemma SmallBitratesNeverDivideByZero(g: Goal)
    requires Searchable(g) && (g.l.tseg1Max + g.l.tseg2Max + 1) * g.bitrate < U32
    ensures !DividesByZero(Candidates(g))
  {
    forall i | 0 <= i < |Candidates(g)| ensures !Candidates(g)[i].zero {
      ZeroMeans(g, i);
      SmallDivisorIsNotZero(g, (First(g) - i) / 2, g.l.tseg1Max + g.l.tseg2Max + 1);
    }
  }

  /**
   The timing is made of candidate w. If the candidates decide it is an optimal one within five
   percent of the bitrate; otherwise it is not optimal, only the best before the first exact one.
   */
  ghost predicate Chose(cs: seq<Candidate>, w: nat, l: Limits, freq: nat, bt: Timing, t: Timing)
    requires freq > 0 && bt.bitrate > 0
  {
    && w < |cs| && cs[w].admissible && cs[w].brp > 0
    && (if Decidable(cs) then Optimal(cs, w) && Tolerable(bt.bitrate, cs[w].error)
        else !Optimal(cs, w) && FirstBest(cs, |cs|, w))
    && t == Finish(l, freq, bt, SamplePoint(bt), cs[w].tseg, cs[w].brp)
  }

  /** What the calculation makes of a finished search. */
  function Concluded(l: Limits, freq: nat, bt: Timing, f: Found): Result<Timing>
    requires freq > 0 && bt.bitrate > 0
    requires f.best.Chosen? ==> f.best.brp > 0
  {
    if f.bestError != 0 && !Tolerable(bt.bitrate, f.bestError) then Err(EDOM)
    else if f.best.None? then Err(DivideFault)
    else Ok(Finish(l, freq, bt, SamplePoint(bt), f.best.tseg, f.best.brp))
  }

  lemma HeldIsRight(g: Goal, f: Found, w: nat)
    requires Searchable(g) && Explored(Candidates(g), |Candidates(g)|, f, w) && f.best.Chosen?
    ensures var cs := Candidates(g);
      w < |cs| && cs[w].admissible && cs[w].brp > 0 && f.best == Chosen(cs[w].tseg, cs[w].brp)
  {
    HeldCandidate(g, w);
  }

  /** The error check passes exactly if some candidate is that close, and then an optimal one is held. */
  lemma DecidableEnds(cs: seq<Candidate>, f: Found, w: nat, bitrate: nat)
    requires Explored(cs, |cs|, f, w) && 0 < bitrate < U32 && Decidable(cs)
    ensures !Faults(cs)
    ensures SomeTolerable(cs, bitrate) <==> Tolerable(bitrate, f.bestError)
    ensures SomeTolerable(cs, bitrate) ==> f.best.Chosen? && Optimal(cs, w) && Tolerable(bitrate, cs[w].error)
  {
    CheckDecides(cs, f, w, bitrate);
    if SomeTolerable(cs, bitrate) {
      var i :| 0 <= i < |cs| && cs[i].admissible && Tolerable(bitrate, cs[i].error);
      ToleranceMonotone(bitrate, cs[w].error, cs[i].error);
    }
    DecidableNeverFaults(cs);
  }

  lemma DecidableNeverFaults(cs: seq<Candidate>)
    requires Decidable(cs)
    ensures !Faults(cs)
  {
    if i :| 0 <= i < |cs| && Exact(cs[i]) && cs[i].sptError <= NO_SPT_ERROR_YET { assert !PassedOver(cs, i); }
  }

  /** Otherwise the error is zero, and what is held, if anything is, is not optimal. */
  lemma UndecidableEnds(cs: seq<Candidate>, f: Found, w: nat)
    requires Explored(cs, |cs|, f, w) && !Decidable(cs)
    ensures f.bestError == 0 && (f.best.None? <==> Faults(cs))
    ensures f.best.Chosen? ==> !Optimal(cs, w) && FirstBest(cs, |cs|, w)
  {
    var i :| 0 <= i < |cs| && Exact(cs[i]);
    assert ExactBefore(cs, |cs|);
  }

  lemma ConclusionIsRight(g: Goal, f: Found, w: nat, bt: Timing)
    requires Searchable(g) && g.freq > 0 && Words(bt) && g.bitrate == bt.bitrate && g.samplPt == SamplePoint(bt)
    requires Explored(Candidates(g), |Candidates(g)|, f, w)
    ensures f.best.Chosen? ==> f.best.brp > 0
    ensures Correct(Candidates(g), g, w, bt, Concluded(g.l, g.freq, bt, f))
  {
    var cs := Candidates(g);
    if f.best.Chosen? { HeldIsRight(g, f, w); }
    if Decidable(cs) { DecidableEnds(cs, f, w, bt.bitrate); } else { UndecidableEnds(cs, f, w); }
    ConcludedFrom(cs, g, f, w, bt);
  }

  lemma ConcludedFrom(cs: seq<Candidate>, g: Goal, f: Found, w: nat, bt: Timing)
    requires g.freq > 0 && bt.bitrate > 0
    requires f.best.Chosen? ==>
      w < |cs| && cs[w].admissible && cs[w].brp > 0 && f.best == Chosen(cs[w].tseg, cs[w].brp)
    requires if Decidable(cs)
      then
        && !Faults(cs) && (SomeTolerable(cs, bt.bitrate) <==> Tolerable(bt.bitrate, f.bestError))
        && (SomeTolerable(cs, bt.bitrate) ==> f.best.Chosen? && Optimal(cs, w) && Tolerable(bt.bitrate, cs[w].error))
      else
        && f.bestError == 0 && (f.best.None? <==> Faults(cs))
        && (f.best.Chosen? ==> !Optimal(cs, w) && FirstBest(cs, |cs|, w))
    ensures Correct(cs, g, w, bt, Concluded(g.l, g.freq, bt, f))
  {
  }

  /** What is promised of a result r of a finished search, for the candidates cs and the held one w. */
  ghost predicate Correct(cs: seq<Candidate>, g: Goal, w: nat, bt: Timing, r: Result<Timing>)
    requires g.freq > 0 && bt.bitrate > 0
  {
    && (r.Ok? <==> Unchecked(cs) || (Decidable(cs) && SomeTolerable(cs, bt.bitrate)))
    && (r.Ok? ==> Chose(cs, w, g.l, g.freq, bt, r.value))
    && (r == Err(EDOM) <==> Decidable(cs) && !SomeTolerable(cs, bt.bitrate))
    && (r == Err(DivideFault) <==> Faults(cs))
  }

  /**
   The whole calculation. It divides by zero exactly if a wrapped divisor is zero or the
   candidates fault. Otherwise, when the candidates decide, it succeeds exactly if one of them
   comes within five percent of the bitrate, with the timing of an optimal one. When they do
   not decide it succeeds unchecked, with one that is not optimal.
   */
  method CalcBittiming(l: Limits, freq: nat, bt: Timing) returns (r: Result<Timing>)
    requires Sane(l) && freq > 0 && Words(bt) && bt.bitrate > 0
    ensures var cs := Candidates(Goal(l, freq, bt.bitrate, SamplePoint(bt)));
      && (r == Err(DivideFault) <==> DividesByZero(cs) || Faults(cs))
      && (!DividesByZero(cs) ==>
            && (r.Ok? <==> Unchecked(cs) || (Decidable(cs) && SomeTolerable(cs, bt.bitrate)))
            && (r == Err(EDOM) <==> Decidable(cs) && !SomeTolerable(cs, bt.bitrate)))
      && (r.Ok? ==> exists w: nat :: Chose(cs, w, l, freq, bt, r.value))
  {
    var samplPt := SamplePoint(bt);
    var g := Goal(l, freq, bt.bitrate, samplPt);
    var f, zero, w := Search(g);
    if zero { return Err(DivideFault); }
    ConclusionIsRight(g, f, w, bt);
    if f.bestError != 0 && !Tolerable(bt.bitrate, f.bestError) { return Err(EDOM); }
    if f.best.None? { return Err(DivideFault); }
    r := Ok(Finish(l, freq, bt, samplPt, f.best.tseg, f.best.brp));
  }

  // ---------- the round trip ----------

  /** Time lost when the quantum is kept as whole nanoseconds in 32 bits, per prescaler step. */
  function RoundingLoss(l: Limits, freq: nat, brp: nat): nat
    requires l.brpInc > 0 && freq > 0
  {
    (brp * NSEC_PER_SEC - freq * Quantum(freq, brp) + l.brpInc - 1) / l.brpInc
  }

  lemma DivDown(a: nat, r: nat, inc: nat)
    requires inc > 0 && r <= inc * a
    ensures (inc * a - r) / inc == a - (r + inc - 1) / inc
  {
    var c := (r + inc - 1) / inc;
    var rest := inc * c - r;
    assert 0 <= rest < inc;
    assert inc * a - r == inc * (a - c) + rest;
    DivUnique(inc * a - r, inc, a - c, rest);
  }

  lemma DivUnique(n: nat, d: nat, q: int, rest: nat)
    requires d > 0 && n == d * q + rest && rest < d
    ensures n / d == q
  {
    var e := n / d - q;
    assert d * e == rest - n % d;
  }

  /** The prescaler is recovered from the stored quantum exactly when the loss stays below half a unit. */
  lemma BrpRecovered(l: Limits, freq: nat, brp: nat, m: nat)
    requires Sane(l) && freq > 0 && brp == m * l.brpInc
    ensures PracticableBrp(l, freq, Quantum(freq, brp)) == brp <==>
      RoundingLoss(l, freq, brp) < 500_000_000
    ensures PracticableBrp(l, freq, Quantum(freq, brp)) <= brp
  {
    var n, inc, tq, c := brp * NSEC_PER_SEC, l.brpInc, Quantum(freq, brp), RoundingLoss(l, freq, brp);
    assert n == inc * (m * NSEC_PER_SEC);
    DivDown(m * NSEC_PER_SEC, n - freq * tq, inc);
    RoundedUnits(m, c);
    PracticableOf(l, freq, tq, m * NSEC_PER_SEC - c);
    SameSteps(inc, (m * NSEC_PER_SEC - c + 499_999_999) / NSEC_PER_SEC, m);
  }

  lemma PracticableOf(l: Limits, freq: nat, tq: nat, scaled: nat)
    requires l.brpInc > 0 && scaled == if l.brpInc > 1 then freq * tq / l.brpInc else freq * tq
    ensures PracticableBrp(l, freq, tq) == (scaled + 499_999_999) / NSEC_PER_SEC * l.brpInc
  {
  }

  lemma SameSteps(inc: nat, q: nat, m: nat)
    requires inc > 0 && q <= m
    ensures q * inc <= m * inc && (q * inc == m * inc <==> q == m)
  {
    MulMono(inc, q, m);
    if q != m { MulMono(inc, q + 1, m); }
  }

  lemma RoundedUnits(m: nat, c: nat)
    requires c <= m * NSEC_PER_SEC
    ensures var q := (m * NSEC_PER_SEC - c + 499_999_999) / NSEC_PER_SEC;
      q <= m && (q == m <==> c < 500_000_000)
  {
  }

  /**
   The calculation's segments and prescaler pass the check of a user's timing: the split
   keeps both segments' limits, there is a jump width, and the quantum loses less than half a unit.
   */
  ghost predicate Undone(l: Limits, freq: nat, samplPt: int, tseg: nat, brp: nat)
    requires Sane(l) && freq > 0
  {
    && (!Skewed(l, samplPt, tseg) || tseg >= l.tseg1Max + l.tseg2Min)
    && l.tseg1Min <= UpdateSpt(l, samplPt, tseg).tseg1
    && 1 <= l.sjwMax
    && RoundingLoss(l, freq, brp) < 500_000_000
  }

  /**
   Calculating a timing and then checking its quantum and segments as if a user had given
   them is the identity: prescaler, bitrate, sample point and the rest all come back,
   exactly under that condition.
   */
  lemma CalcThenFixup(l: Limits, freq: nat, bt: Timing, samplPt: int, tseg: nat, m: nat)
    requires Sane(l) && 0 < freq < U32 && l.sjwMax < U32 && bt.sjw >= 0
    requires SegmentsInRange(l, tseg)
    requires l.brpMin <= m * l.brpInc <= l.brpMax < U32
    ensures var t := Finish(l, freq, bt, samplPt, tseg, m * l.brpInc);
      Words(t) && (Fixup(l, freq, t) == Ok(t) <==> Undone(l, freq, samplPt, tseg, m * l.brpInc))
  {
    var brp := m * l.brpInc;
    SplitLimits(l, samplPt, tseg);
    var t, s := Finish(l, freq, bt, samplPt, tseg, brp), UpdateSpt(l, samplPt, tseg);
    if l.tseg2Min <= s.tseg2 <= l.tseg2Max && 1 <= l.sjwMax {
      BrpRecovered(l, freq, brp, m);
      SptInsideBit(l, samplPt, tseg);
      FinishedTiming(l, freq, bt.sjw, s, brp);
      FixupOf(l, freq, t, s.tseg1);
    } else {
      SptInsideBit(l, samplPt, tseg);
      FinishedWords(l, freq, bt.sjw, s, brp);
      OutOfRange(l, freq, bt.sjw, s, brp);
    }
  }

  lemma OutOfRange(l: Limits, freq: nat, sjw: int, s: Split, brp: nat)
    requires Sane(l) && freq > 0 && brp > 0 && s.tseg1 + s.tseg2 >= 0 && 0 <= s.tseg1 <= l.tseg1Max
    requires Words(TimingFor(l, freq, sjw, s, brp))
    requires l.sjwMax == 0 || s.tseg2 < l.tseg2Min || s.tseg2 > l.tseg2Max
    ensures Fixup(l, freq, TimingFor(l, freq, sjw, s, brp)) == Err(ERANGE)
  {
  }

  /** Every field of a finished timing is a word. */
  lemma FinishedWords(l: Limits, freq: nat, sjw: int, s: Split, brp: nat)
    requires Sane(l) && 0 < freq < U32 && l.sjwMax < U32 && sjw >= 0 && 0 < brp < U32
    requires 0 <= s.tseg1 <= l.tseg1Max && 0 <= s.tseg1 + s.tseg2 <= l.tseg1Max + l.tseg2Max && 0 <= s.spt < U32
    ensures Words(TimingFor(l, freq, sjw, s, brp))
  {
  }

  lemma FinishedTiming(l: Limits, freq: nat, sjw: int, s: Split, brp: nat)
    requires Sane(l) && 0 < freq < U32 && 1 <= l.sjwMax < U32 && sjw >= 0
    requires 0 <= s.tseg1 < U32 && 1 <= s.tseg2 < U32 && 0 <= s.spt <= 1000
    requires 0 < brp < U32
    ensures var t := TimingFor(l, freq, sjw, s, brp);
      && Words(t) && 1 <= t.sjw <= l.sjwMax && t.brp == brp
      && t.propSeg + t.phaseSeg1 == s.tseg1 && t.phaseSeg2 == s.tseg2
      && t.tq == Quantum(freq, brp) && t.samplePoint == s.spt
      && t.bitrate == BitrateOf(freq, brp, s.tseg1 + s.tseg2)
  {
  }

  lemma QuotientBelow(a: nat, b: nat, c: nat)
    requires b > 0 && c > 0
    ensures b * c > 0 && a / (b * c) <= a
  {
    MulMono(c, 1, b);
    DivMono(a, 1, b * c);
  }

  /** Fixup keeps a timing whose segments are in range exactly if it arrives at the same prescaler. */
  lemma FixupOf(l: Limits, freq: nat, t: Timing, tseg1: nat)
    requires Sane(l) && Words(t) && 1 <= t.sjw <= l.sjwMax && l.brpMin <= t.brp <= l.brpMax
    requires t.propSeg + t.phaseSeg1 == tseg1 <= l.tseg1Max && l.tseg2Min <= t.phaseSeg2 <= l.tseg2Max
    requires t.bitrate == BitrateOf(freq, t.brp, tseg1 + t.phaseSeg2)
    requires t.samplePoint == 1000 * (tseg1 + 1) / (tseg1 + t.phaseSeg2 + 1)
    requires PracticableBrp(l, freq, t.tq) < U32
    ensures Fixup(l, freq, t) == Ok(t) <==>
      l.tseg1Min <= tseg1 && PracticableBrp(l, freq, t.tq) == t.brp
  {
    SmallWord(PracticableBrp(l, freq, t.tq));
    SmallWord(tseg1);
    SmallWord(tseg1 + t.phaseSeg2 + 1);
  }

  lemma SmallWord(x: nat)
    requires x < U32
    ensures x % U32 == x
  {
  }

  /** A clock of at most 500 MHz never loses that much, whatever the prescaler and its step. */
  lemma SlowClocksLoseLittle(l: Limits, freq: nat, brp: nat)
    requires l.brpInc > 0 && 0 < freq <= 500_000_000 && brp * NSEC_PER_SEC / freq < U32
    ensures RoundingLoss(l, freq, brp) < 500_000_000
  {
    var exact, inc := brp * NSEC_PER_SEC / freq, l.brpInc;
    assert Quantum(freq, brp) == exact;
    var r := brp * NSEC_PER_SEC - freq * exact;
    assert r < freq;
    if r > 0 {
      MulMono(r - 1, 1, inc);
      DivBelow(r + inc - 1, inc, r + 1);
    }
  }

  lemma BrpInSteps(g: Goal, x: nat) returns (m: nat)
    requires Searchable(g) && Divisor(g, x / 2) > 0
    ensures Brp(g, x) == m * g.l.brpInc
  {
    m := (g.freq / Divisor(g, x / 2) + x % 2) % U32 / g.l.brpInc;
  }

  /** The candidates' segment counts are those in range, and their prescalers are whole steps. */
  lemma {:induction false} CandidateInRange(g: Goal, w: nat) returns (m: nat)
    requires Searchable(g) && w < |Candidates(g)| && Candidates(g)[w].admissible
    ensures var c := Candidates(g)[w];
      SegmentsInRange(g.l, c.tseg) && c.brp == m * g.l.brpInc && g.l.brpMin <= c.brp <= g.l.brpMax
  {
    CandidateIndex(g, First(g) - w);
    m := BrpInSteps(g, First(g) - w);
  }

  /**
   The round trip for what CalcBittiming returns: its timing t is made of some candidate,
   and checking t gives t back exactly if that candidate's split keeps the limits and
   little enough is lost.
   */
  lemma CalculatedThenChecked(cs: seq<Candidate>, l: Limits, freq: nat, bt: Timing, w: nat, t: Timing)
    requires Sane(l) && 0 < freq < U32 && l.sjwMax < U32 && l.brpMax < U32 && Words(bt) && bt.bitrate > 0
    requires cs == Candidates(Goal(l, freq, bt.bitrate, SamplePoint(bt))) && Chose(cs, w, l, freq, bt, t)
    ensures Words(t) && (Fixup(l, freq, t) == Ok(t) <==> Undone(l, freq, SamplePoint(bt), cs[w].tseg, cs[w].brp))
  {
    var m := CandidateInRange(Goal(l, freq, bt.bitrate, SamplePoint(bt)), w);
    CalcThenFixup(l, freq, bt, SamplePoint(bt), cs[w].tseg, m);
  }

  /** With a clock of at most 500 MHz that is: exactly if the split keeps both segments' limits. */
  lemma UndoneOnSlowClocks(l: Limits, freq: nat, samplPt: int, tseg: nat, brp: nat)
    requires Sane(l) && 0 < freq <= 500_000_000 && 1 <= l.sjwMax && brp * NSEC_PER_SEC / freq < U32
    requires SegmentsInRange(l, tseg)
    ensures var s := UpdateSpt(l, samplPt, tseg);
      Undone(l, freq, samplPt, tseg, brp) <==> l.tseg1Min <= s.tseg1 && l.tseg2Min <= s.tseg2 <= l.tseg2Max
  {
    SplitLimits(l, samplPt, tseg);
    SlowClocksLoseLittle(l, freq, brp);
  }
}
