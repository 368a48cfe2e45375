/** What the numbers of a calculated or checked timing are: rate, sample point, quantum and jump width. */
module BitTimingResult {
  import opened BitTiming
  import opened BitTimingCalc

  // ---------- the split ----------

  /** So many quanta before the sample point, besides the synchronisation quantum, keep both segments' limits. */
  predicate Allowed(l: Limits, tseg: nat, tseg1: int) {
    0 <= tseg1 <= l.tseg1Max && l.tseg2Min <= tseg - tseg1 <= l.tseg2Max
  }

  /** Sampling after them is not later than wanted. */
  predicate InTime(samplPt: nat, tseg: nat, tseg1: int) { 1000 * (tseg1 + 1) <= samplPt * (tseg + 1) }

  /** A split keeps the limits, and another one is no better. */
  ghost predicate Latest(l: Limits, samplPt: nat, tseg: nat, s: Split, other: int) {
    && Allowed(l, tseg, s.tseg1) && s.tseg2 == tseg - s.tseg1
    && (InTime(samplPt, tseg, s.tseg1) && InTime(samplPt, tseg, other) ==> other <= s.tseg1)
    && (!InTime(samplPt, tseg, s.tseg1) ==> s.tseg1 <= other)
  }

  /** The whole quanta up to the sample point are as many as fit before it. */
  lemma SampleQuanta(samplPt: nat, tseg: nat, tseg1: int)
    requires samplPt * (tseg + 1) < 0x8000_0000
    ensures InTime(samplPt, tseg, tseg1) <==> tseg1 + 1 <= UpToSample(samplPt, tseg)
  {
    assert Int(samplPt * (tseg + 1)) == samplPt * (tseg + 1);
  }

  /**
   Of the splits that keep the limits the code takes the latest sample point that is not after
   the one wanted, and the earliest of all if every one is.
   */
  lemma SplitIsLatest(l: Limits, samplPt: nat, tseg: nat, other: int)
    requires Sane(l) && SegmentsInRange(l, tseg) && samplPt <= 1000
    requires !Skewed(l, samplPt, tseg)
    requires Allowed(l, tseg, other)
    ensures Latest(l, samplPt, tseg, UpdateSpt(l, samplPt, tseg), other)
  {
    var s := UpdateSpt(l, samplPt, tseg);
    SplitAllowed(l, samplPt, tseg);
    SampleWithin(samplPt, tseg);
    SampleQuanta(samplPt, tseg, s.tseg1);
    SampleQuanta(samplPt, tseg, other);
    SplitTakes(l, samplPt, tseg, other);
  }

  lemma SampleWithin(samplPt: nat, tseg: nat)
    requires samplPt <= 1000 && 1000 * (tseg + 1) < 0x8000_0000
    ensures samplPt * (tseg + 1) < 0x8000_0000 && UpToSample(samplPt, tseg) <= tseg + 1
  {
    MulMono(tseg + 1, samplPt, 1000);
    SampleInside(samplPt, tseg);
  }

  lemma SplitAllowed(l: Limits, samplPt: int, tseg: nat)
    requires Sane(l) && SegmentsInRange(l, tseg) && !Skewed(l, samplPt, tseg)
    ensures var s := UpdateSpt(l, samplPt, tseg); Allowed(l, tseg, s.tseg1) && s.tseg2 == tseg - s.tseg1
  {
    SplitLimits(l, samplPt, tseg);
  }

  lemma SplitTakes(l: Limits, samplPt: nat, tseg: nat, other: int)
    requires Sane(l) && SegmentsInRange(l, tseg) && UpToSample(samplPt, tseg) <= tseg + 1
    requires !Skewed(l, samplPt, tseg)
    requires Allowed(l, tseg, other)
    ensures var s, up := UpdateSpt(l, samplPt, tseg), UpToSample(samplPt, tseg);
      && (s.tseg1 < up && other < up ==> other <= s.tseg1)
      && (s.tseg1 >= up ==> s.tseg1 <= other)
  {
    ClampTakes(l, UpToSample(samplPt, tseg), tseg, ClampTseg2(l, samplPt, tseg), other);
  }

  /** The same for the two clamps alone. */
  lemma ClampTakes(l: Limits, up: int, tseg: nat, tseg2: int, other: int)
    requires l.tseg1Max + l.tseg2Max < 0x8000_0000 && 1 <= l.tseg2Min <= l.tseg2Max && SegmentsInRange(l, tseg)
    requires -0x8000_0000 <= up <= tseg + 1
    requires var raw := tseg + 1 - up; var atLeast := if Unsigned(raw) < l.tseg2Min then l.tseg2Min else raw;
      tseg2 == if Unsigned(atLeast) > l.tseg2Max then l.tseg2Max else atLeast
    requires !(tseg < l.tseg2Max && up <= 0)
    requires Allowed(l, tseg, other)
    ensures var tseg1 := if Unsigned(tseg - tseg2) > l.tseg1Max then l.tseg1Max else tseg - tseg2;
      && (tseg1 < up && other < up ==> other <= tseg1)
      && (tseg1 >= up ==> tseg1 <= other)
  {
  }

  // ---------- the rate ----------

  /** The rate is the clock divided by prescaler and quanta, rounded down. */
  ghost predicate RateOf(freq: nat, quanta: int, t: Timing) {
    t.bitrate * (t.brp * quanta) <= freq < (t.bitrate + 1) * (t.brp * quanta)
  }

  /** The sample point is the tenths of a percent of the bit that have passed after so many quanta, rounded down. */
  ghost predicate SampledAfter(upTo: int, quanta: int, t: Timing) {
    t.samplePoint * quanta <= 1000 * upTo < (t.samplePoint + 1) * quanta
  }

  /** The quantum is the prescaler's in nanoseconds, rounded down. */
  ghost predicate QuantumOf(freq: nat, t: Timing) {
    t.tq * freq <= t.brp * NSEC_PER_SEC < (t.tq + 1) * freq
  }

  /** The quanta of a bit; the fields are added as words. */
  function QuantaOf(t: Timing): int { (t.propSeg + t.phaseSeg1 + t.phaseSeg2 + 1) % U32 }

  lemma BitrateBounds(freq: nat, brp: nat, segments: nat)
    requires brp > 0
    ensures brp * (segments + 1) > 0
    ensures BitrateOf(freq, brp, segments) == freq / (brp * (segments + 1))
    ensures var r := BitrateOf(freq, brp, segments);
      r * (brp * (segments + 1)) <= freq < (r + 1) * (brp * (segments + 1))
  {
    QuotientBelow(freq, brp, segments + 1);
    DivExact(freq, brp * (segments + 1));
  }

  lemma WrappedQuanta(tseg1: nat, tseg2: int, tseg: nat)
    requires tseg1 + tseg2 == tseg && tseg1 < 0x8000_0000 && tseg + 1 < 0x8000_0000
    ensures (tseg1 + Unsigned(tseg2) + 1) % U32 == tseg + 1
  {
    if tseg2 < 0 { ModOnce(tseg + 1); } else { SmallWord(tseg + 1); }
  }

  lemma ModOnce(x: nat)
    requires x < U32
    ensures (x + U32) % U32 == x
  {
  }

  /** The segments of a split: the propagation segment is the smaller half of the first. */
  lemma FinishedSegments(l: Limits, freq: nat, bt: Timing, samplPt: int, tseg: nat, brp: nat)
    requires Sane(l) && freq > 0 && brp > 0 && SegmentsInRange(l, tseg)
    ensures var t, s := Finish(l, freq, bt, samplPt, tseg, brp), UpdateSpt(l, samplPt, tseg);
      && t.propSeg + t.phaseSeg1 == s.tseg1 && t.propSeg <= t.phaseSeg1 <= t.propSeg + 1
      && t.phaseSeg2 == Unsigned(s.tseg2) && t.brp == brp && QuantaOf(t) == tseg + 1
      && t.samplePoint == s.spt && t.tq == Quantum(freq, brp) && t.bitrate == BitrateOf(freq, brp, tseg)
  {
    SplitLimits(l, samplPt, tseg);
    var s := UpdateSpt(l, samplPt, tseg);
    WrappedQuanta(s.tseg1, s.tseg2, tseg);
    FieldsOf(l, freq, bt.sjw, s, brp);
  }

  lemma FieldsOf(l: Limits, freq: nat, sjw: int, s: Split, brp: nat)
    requires freq > 0 && brp > 0 && s.tseg1 + s.tseg2 >= 0
    ensures var t := TimingFor(l, freq, sjw, s, brp);
      && t.propSeg + t.phaseSeg1 == s.tseg1 && t.propSeg <= t.phaseSeg1 <= t.propSeg + 1
      && t.phaseSeg2 == Unsigned(s.tseg2) && t.brp == brp && t.samplePoint == s.spt
      && t.tq == Quantum(freq, brp) && t.bitrate == BitrateOf(freq, brp, s.tseg1 + s.tseg2)
  {
  }

  lemma FinishedRate(l: Limits, freq: nat, bt: Timing, samplPt: int, tseg: nat, brp: nat)
    requires Sane(l) && freq > 0 && brp > 0 && SegmentsInRange(l, tseg)
    ensures RateOf(freq, tseg + 1, Finish(l, freq, bt, samplPt, tseg, brp))
  {
    FinishedSegments(l, freq, bt, samplPt, tseg, brp);
    BitrateBounds(freq, brp, tseg);
  }

  lemma SplitSample(l: Limits, samplPt: int, tseg: nat)
    requires UpdateSpt(l, samplPt, tseg).tseg2 <= tseg + 1
    ensures var s := UpdateSpt(l, samplPt, tseg);
      s.spt * (tseg + 1) <= 1000 * (tseg + 1 - s.tseg2) < (s.spt + 1) * (tseg + 1)
  {
    DivExact(1000 * (tseg + 1 - UpdateSpt(l, samplPt, tseg).tseg2), tseg + 1);
  }

  lemma FinishedSample(l: Limits, freq: nat, bt: Timing, samplPt: int, tseg: nat, brp: nat)
    requires Sane(l) && freq > 0 && brp > 0 && SegmentsInRange(l, tseg)
    ensures var t := Finish(l, freq, bt, samplPt, tseg, brp); SampledAfter(1 + t.propSeg + t.phaseSeg1, tseg + 1, t)
  {
    FinishedSegments(l, freq, bt, samplPt, tseg, brp);
    SplitLimits(l, samplPt, tseg);
    SplitSample(l, samplPt, tseg);
  }

  lemma QuantumBounds(freq: nat, brp: nat)
    requires freq > 0 && brp * NSEC_PER_SEC / freq < U32
    ensures Quantum(freq, brp) * freq <= brp * NSEC_PER_SEC < (Quantum(freq, brp) + 1) * freq
  {
    DivExact(brp * NSEC_PER_SEC, freq);
  }

  lemma FinishedQuantum(l: Limits, freq: nat, bt: Timing, samplPt: int, tseg: nat, brp: nat)
    requires Sane(l) && freq > 0 && brp > 0 && SegmentsInRange(l, tseg) && brp * NSEC_PER_SEC / freq < U32
    ensures QuantumOf(freq, Finish(l, freq, bt, samplPt, tseg, brp))
  {
    FinishedSegments(l, freq, bt, samplPt, tseg, brp);
    QuantumBounds(freq, brp);
  }

  /**
   The jump width is one unless a user gave one and the controller has any; then it is the
   largest that exceeds none of the user's, the controller's and the second segment.
   */
  lemma JumpWidth(l: Limits, sjw: nat, tseg2: nat)
    ensures var r := SjwFor(l, sjw, tseg2);
      && (sjw == 0 || l.sjwMax == 0 ==> r == 1)
      && (sjw > 0 && l.sjwMax > 0 ==> r <= sjw && r <= l.sjwMax && r <= tseg2 && r in {sjw, l.sjwMax, tseg2})
  {
  }

  /** A sample point left open is 87.5 percent, 80 above 500 kbit/s and 75 above 800 kbit/s; a small one given stays. */
  lemma DefaultSamplePoint(bt: Timing)
    requires Words(bt)
    ensures bt.samplePoint == 0 ==> SamplePoint(bt) in {750, 800, 875}
    ensures bt.samplePoint == 0 ==>
      && (SamplePoint(bt) == 875 <==> bt.bitrate <= 500_000)
      && (SamplePoint(bt) == 750 <==> bt.bitrate > 800_000)
    ensures 0 < bt.samplePoint < 0x8000_0000 ==> SamplePoint(bt) == bt.samplePoint
  {
  }

  lemma {:induction false} CandidateNumbers(g: Goal, w: nat)
    requires Searchable(g) && w < |Candidates(g)| && Candidates(g)[w].admissible
    ensures var c := Candidates(g)[w];
      SegmentsInRange(g.l, c.tseg) && c.brp > 0 && c.error == Abs(g.bitrate - BitrateOf(g.freq, c.brp, c.tseg))
  {
    var m := CandidateInRange(g, w);
    CandidateIndex(g, First(g) - w);
    var c := Candidates(g)[w];
    BitrateBounds(g.freq, c.brp, c.tseg);
    assert c == CandidateAt(g, First(g) - w);
  }

  /** Segments, rate, sample point, quantum and jump width of a timing for so many segments and a prescaler. */
  ghost predicate Numbers(l: Limits, freq: nat, bt: Timing, samplPt: int, tseg: nat, brp: nat, t: Timing)
    requires freq > 0
  {
    var s := UpdateSpt(l, samplPt, tseg);
    && t.propSeg + t.phaseSeg1 == s.tseg1 && t.propSeg <= t.phaseSeg1 <= t.propSeg + 1
    && t.phaseSeg2 == Unsigned(s.tseg2) && t.sjw == SjwFor(l, bt.sjw, s.tseg2)
    && t.brp == brp && QuantaOf(t) == tseg + 1
    && RateOf(freq, QuantaOf(t), t)
    && SampledAfter(1 + t.propSeg + t.phaseSeg1, QuantaOf(t), t)
    && (brp * NSEC_PER_SEC / freq < U32 ==> QuantumOf(freq, t))
  }

  lemma FinishedNumbers(l: Limits, freq: nat, bt: Timing, samplPt: int, tseg: nat, brp: nat)
    requires Sane(l) && freq > 0 && brp > 0 && SegmentsInRange(l, tseg)
    ensures Numbers(l, freq, bt, samplPt, tseg, brp, Finish(l, freq, bt, samplPt, tseg, brp))
  {
    FinishedSegments(l, freq, bt, samplPt, tseg, brp);
    FinishedRate(l, freq, bt, samplPt, tseg, brp);
    FinishedSample(l, freq, bt, samplPt, tseg, brp);
    if brp * NSEC_PER_SEC / freq < U32 { FinishedQuantum(l, freq, bt, samplPt, tseg, brp); }
  }

  /**
   What the calculation returns for its candidate: the rate is the clock's for prescaler and
   quanta and misses the wanted one by the error the search minimised; segments, sample point
   and quantum belong to it.
   */
  lemma ChosenNumbers(cs: seq<Candidate>, l: Limits, freq: nat, bt: Timing, w: nat, t: Timing)
    requires Sane(l) && freq > 0 && Words(bt) && bt.bitrate > 0
    requires cs == Candidates(Goal(l, freq, bt.bitrate, SamplePoint(bt))) && Chose(cs, w, l, freq, bt, t)
    ensures Abs(bt.bitrate - t.bitrate) == cs[w].error
    ensures Numbers(l, freq, bt, SamplePoint(bt), cs[w].tseg, cs[w].brp, t)
  {
    CandidateNumbers(Goal(l, freq, bt.bitrate, SamplePoint(bt)), w);
    FinishedNumbers(l, freq, bt, SamplePoint(bt), cs[w].tseg, cs[w].brp);
    FinishedSegments(l, freq, bt, SamplePoint(bt), cs[w].tseg, cs[w].brp);
  }

  /** The prescaler tried is the largest whole step up to the ideal one, or to the next integer for an odd x. */
  lemma PrescalerIsStep(g: Goal, x: nat, ideal: nat)
    requires Searchable(g) && Divisor(g, x / 2) > 0 && ideal == g.freq / Divisor(g, x / 2) + x % 2 < U32
    ensures Brp(g, x) <= ideal < Brp(g, x) + g.l.brpInc && Brp(g, x) / g.l.brpInc * g.l.brpInc == Brp(g, x)
  {
    BrpIsWhole(g, x, ideal, ideal / g.l.brpInc);
    StepBelow(ideal, g.l.brpInc, ideal / g.l.brpInc);
  }

  lemma BrpIsWhole(g: Goal, x: nat, ideal: nat, q: nat)
    requires Searchable(g) && Divisor(g, x / 2) > 0 && ideal == g.freq / Divisor(g, x / 2) + x % 2 < U32
    requires q == ideal / g.l.brpInc
    ensures Brp(g, x) == q * g.l.brpInc
  {
    SmallWord(ideal);
  }

  lemma StepBelow(ideal: nat, inc: nat, q: nat)
    requires inc > 0 && q == ideal / inc
    ensures q * inc <= ideal < q * inc + inc && q * inc / inc == q
  {
    DivExact(ideal, inc);
    WholeSteps(q, inc);
  }

  /** Tolerated is an error below 5.1 percent: tenths of a percent are rounded down and compared with 50. */
  lemma ToleratedBelow(bitrate: nat, error: nat)
    requires bitrate > 0
    ensures Tolerable(bitrate, error) <==> error * 1000 < 51 * bitrate
  {
    if error * 1000 < 51 * bitrate { DivBelow(error * 1000, bitrate, 51); } else { DivAtLeast(error * 1000, bitrate, 51); }
  }

  // ---------- a user's timing ----------

  /** The prescaler whose quantum comes nearest to the one given, in whole steps. */
  lemma PracticableIsNearest(l: Limits, freq: nat, tq: nat)
    requires l.brpInc > 0
    ensures var u, scaled := PracticableBrp(l, freq, tq) / l.brpInc, freq * tq / l.brpInc;
      && u * l.brpInc == PracticableBrp(l, freq, tq)
      && u * NSEC_PER_SEC <= scaled + 499_999_999 < (u + 1) * NSEC_PER_SEC
  {
    var scaled := freq * tq / l.brpInc;
    assert l.brpInc == 1 ==> freq * tq / 1 == freq * tq;
    PracticableOf(l, freq, tq, scaled);
    WholeSteps((scaled + 499_999_999) / NSEC_PER_SEC, l.brpInc);
  }

  lemma WholeSteps(u: nat, inc: nat)
    requires inc > 0
    ensures u * inc / inc == u
  {
    DivUnique(u * inc, inc, u, 0);
  }

  /** The segments and jump width a controller takes; the first two segments are added as words. */
  predicate WithinLimits(l: Limits, bt: Timing) {
    && l.tseg1Min <= (bt.propSeg + bt.phaseSeg1) % U32 <= l.tseg1Max
    && l.tseg2Min <= bt.phaseSeg2 <= l.tseg2Max
    && bt.sjw <= l.sjwMax && 1 <= l.sjwMax
  }

  function WordBrp(l: Limits, freq: nat, bt: Timing): int
    requires l.brpInc > 0 && bt.tq >= 0
  {
    PracticableBrp(l, freq, bt.tq) % U32
  }

  /** A user's timing is accepted exactly if its segments, jump width and prescaler keep the limits, with an error for each. */
  lemma AcceptedIff(l: Limits, freq: nat, bt: Timing)
    requires Sane(l) && Words(bt)
    ensures var r := Fixup(l, freq, bt);
      && (r.Ok? <==> WithinLimits(l, bt) && l.brpMin <= WordBrp(l, freq, bt) <= l.brpMax)
      && (r == Err(ERANGE) <==> !WithinLimits(l, bt))
      && (r.Err? ==> r.error in {ERANGE, EINVAL})
  {
  }

  lemma AcceptedFields(l: Limits, freq: nat, bt: Timing)
    requires Sane(l) && Words(bt) && Fixup(l, freq, bt).Ok?
    ensures var t, q, tseg1 := Fixup(l, freq, bt).value, QuantaOf(bt), (bt.propSeg + bt.phaseSeg1) % U32;
      && q == tseg1 + bt.phaseSeg2 + 1 && l.brpMin <= t.brp <= l.brpMax
      && t == bt.(sjw := if bt.sjw == 0 then 1 else bt.sjw, brp := WordBrp(l, freq, bt),
                  bitrate := BitrateOf(freq, t.brp, q - 1), samplePoint := (tseg1 + 1) * 1000 / q)
  {
    WrappedSum(bt.propSeg + bt.phaseSeg1, bt.phaseSeg2 + 1);
  }

  /**
   An accepted timing keeps the user's segments and quantum, and its jump width unless that was
   left open. Its rate and sample point are those of the segments and the prescaler.
   */
  lemma AcceptedNumbers(l: Limits, freq: nat, bt: Timing)
    requires Sane(l) && Words(bt) && Fixup(l, freq, bt).Ok?
    ensures var t := Fixup(l, freq, bt).value;
      && t.propSeg == bt.propSeg && t.phaseSeg1 == bt.phaseSeg1 && t.phaseSeg2 == bt.phaseSeg2 && t.tq == bt.tq
      && t.sjw == (if bt.sjw == 0 then 1 else bt.sjw)
      && t.brp == WordBrp(l, freq, bt) && l.brpMin <= t.brp <= l.brpMax
      && RateOf(freq, QuantaOf(t), t)
      && SampledAfter(1 + (t.propSeg + t.phaseSeg1) % U32, QuantaOf(t), t)
  {
    AcceptedFields(l, freq, bt);
    var t, q := Fixup(l, freq, bt).value, QuantaOf(bt);
    BitrateBounds(freq, t.brp, q - 1);
    DivExact(((bt.propSeg + bt.phaseSeg1) % U32 + 1) * 1000, q);
  }
}
