/** The MCP251x limits on bit timing, and its three configuration registers. */
module Mcp251xTiming {
  import opened BitTiming
  import opened BitTimingCalc

  const LIMITS := Limits(3, 16, 2, 8, 4, 1, 64, 1)

  /**
   For these limits and the default sample points every segment count of the search
   splits into segments within all four limits, and their parts fit the registers.
   */
  lemma DefaultSplitsFit(samplPt: nat, tseg: nat)
    requires samplPt in {750, 800, 875} && SegmentsInRange(LIMITS, tseg)
    ensures var s := UpdateSpt(LIMITS, samplPt, tseg);
      && s.tseg1 + s.tseg2 == tseg && 3 <= s.tseg1 <= 16 && 2 <= s.tseg2 <= 8
      && 1 <= s.tseg1 / 2 <= 8 && 1 <= s.tseg1 - s.tseg1 / 2 <= 8
  {
  }

  const CNF2_BTLMODE: bv32 := 0x80
  const CNF2_SAM: bv32 := 0x40
  const CNF3_PHSEG2_MASK: bv32 := 0x07

  // Register values; a register keeps the low eight bits of what is written to it.
  function Cnf1(sjw: bv32, brp: bv32): bv32 { (((sjw - 1) << 6) | (brp - 1)) & 0xFF }

  function Cnf2(threeSamples: bool, propSeg: bv32, phaseSeg1: bv32): bv32 {
    (CNF2_BTLMODE | (if threeSamples then CNF2_SAM else 0) | ((phaseSeg1 - 1) << 3) | (propSeg - 1)) & 0xFF
  }

  /** A bit-modify of the phase segment bits. */
  function Cnf3(before: bv32, phaseSeg2: bv32): bv32 {
    (before & !CNF3_PHSEG2_MASK) | ((phaseSeg2 - 1) & CNF3_PHSEG2_MASK)
  }

  predicate Holds(cnf1: bv32, cnf2: bv32, cnf3: bv32,
                  sjw: bv32, brp: bv32, threeSamples: bool, propSeg: bv32, phaseSeg1: bv32, phaseSeg2: bv32)
  {
    && (cnf1 >> 6) + 1 == sjw && (cnf1 & 0x3F) + 1 == brp
    && cnf2 & CNF2_BTLMODE != 0 && (cnf2 & CNF2_SAM != 0 <==> threeSamples)
    && (cnf2 & 0x07) + 1 == propSeg && ((cnf2 >> 3) & 0x07) + 1 == phaseSeg1
    && (cnf3 & CNF3_PHSEG2_MASK) + 1 == phaseSeg2
  }

  predicate FitsRegisters(sjw: bv32, brp: bv32, propSeg: bv32, phaseSeg1: bv32, phaseSeg2: bv32) {
    && 1 <= sjw <= 4 && 1 <= brp <= 64
    && 1 <= propSeg <= 8 && 1 <= phaseSeg1 <= 8 && 1 <= phaseSeg2 <= 8
  }

  /** The registers hold the timing they were written with exactly when each part fits its field. */
  lemma RegistersHoldTiming(sjw: bv32, brp: bv32, threeSamples: bool, propSeg: bv32, phaseSeg1: bv32,
                            phaseSeg2: bv32, before: bv32)
    ensures Holds(Cnf1(sjw, brp), Cnf2(threeSamples, propSeg, phaseSeg1), Cnf3(before, phaseSeg2),
                  sjw, brp, threeSamples, propSeg, phaseSeg1, phaseSeg2)
      <==> FitsRegisters(sjw, brp, propSeg, phaseSeg1, phaseSeg2)
    ensures Cnf3(before, phaseSeg2) & !CNF3_PHSEG2_MASK == before & !CNF3_PHSEG2_MASK
  {
  }

  predicate Fits(t: Timing) {
    && 1 <= t.sjw <= 4 && 1 <= t.brp <= 64
    && 1 <= t.propSeg <= 8 && 1 <= t.phaseSeg1 <= 8 && 1 <= t.phaseSeg2 <= 8
  }

  lemma WordRanges(x: bv32)
    ensures 1 <= x <= 4 <==> 1 <= x as int <= 4
    ensures 1 <= x <= 8 <==> 1 <= x as int <= 8
    ensures 1 <= x <= 64 <==> 1 <= x as int <= 64
  {
  }

  /** mcp251x_do_set_bittiming of a timing, given by its words: the registers hold it exactly if it fits. */
  lemma TimingRoundTrip(t: Timing, sjw: bv32, brp: bv32, propSeg: bv32, phaseSeg1: bv32, phaseSeg2: bv32,
                        threeSamples: bool, before: bv32)
    requires t.sjw == sjw as int && t.brp == brp as int && t.propSeg == propSeg as int
    requires t.phaseSeg1 == phaseSeg1 as int && t.phaseSeg2 == phaseSeg2 as int
    ensures Holds(Cnf1(sjw, brp), Cnf2(threeSamples, propSeg, phaseSeg1), Cnf3(before, phaseSeg2),
                  sjw, brp, threeSamples, propSeg, phaseSeg1, phaseSeg2)
      <==> Fits(t)
  {
    RegistersHoldTiming(sjw, brp, threeSamples, propSeg, phaseSeg1, phaseSeg2, before);
    WordRanges(sjw);
    WordRanges(brp);
    WordRanges(propSeg);
    WordRanges(phaseSeg1);
    WordRanges(phaseSeg2);
  }

  /** Every timing the calculation returns for a default sample point fits. */
  lemma CalculatedTimingFits(freq: nat, bt: Timing, samplPt: nat, tseg: nat, brp: nat)
    requires samplPt in {750, 800, 875} && SegmentsInRange(LIMITS, tseg) && LIMITS.brpMin <= brp <= LIMITS.brpMax
    requires 0 < freq && bt.sjw >= 0
    ensures Fits(Finish(LIMITS, freq, bt, samplPt, tseg, brp))
  {
    DefaultSplitsFit(samplPt, tseg);
  }

  /**
   A user's timing is only checked for the sum of its first two segments: one that passes
   fits exactly if each of the two has between one and eight quanta.
   */
  lemma CheckedTimingFits(freq: nat, t: Timing)
    requires Words(t) && Fixup(LIMITS, freq, t).Ok?
    ensures Fits(Fixup(LIMITS, freq, t).value) <==> 1 <= t.propSeg <= 8 && 1 <= t.phaseSeg1 <= 8
  {
  }

  /** At 16 MHz, one propagation quantum and 15 of phase segment 1 pass the check and do not fit. */
  lemma CheckedTimingThatDoesNotFit()
    ensures var t := Timing(0, 0, 125, 1, 15, 3, 1, 0);
      Words(t) && Fixup(LIMITS, 16_000_000, t).Ok? && !Fits(Fixup(LIMITS, 16_000_000, t).value)
  {
  }

  /** The sum is a 32-bit word: four quanta of phase segment 1 and minus one of propagation pass it as three. */
  lemma WrappedTimingPasses()
    ensures var t := Timing(0, 0, 125, 0xFFFF_FFFF, 4, 3, 1, 0);
      Words(t) && Fixup(LIMITS, 16_000_000, t).Ok? && !Fits(Fixup(LIMITS, 16_000_000, t).value)
  {
  }

  // ---------- requests that the calculation gets wrong ----------

  /** An 8 MHz clock, 5 kbit/s and a sample point that lies outside the bit. */
  const UNMET := Goal(LIMITS, 8_000_000, 5000, 5000)

  lemma FewerQuantaNeedMore(tseg: nat)
    requires tseg < 24
    ensures 8_000_000 / ((1 + tseg) * 5000) > 64
  {
    DivAtLeast(8_000_000, (1 + tseg) * 5000, 66);
  }

  lemma NoMoreThanTheClock(tseg: nat)
    ensures 8_000_000 / ((1 + tseg) * 5000) <= 1600
  {
    DivBelow(8_000_000, (1 + tseg) * 5000, 1601);
  }

  /** Only 25 quanta with prescaler 64 are admissible: that meets the bitrate, but not the sample point. */
  lemma UnmetCandidate(tseg: nat, up: nat)
    requires 5 <= tseg <= 24 && up <= 1
    ensures var c := CandidateAt(UNMET, 2 * tseg + up);
      && (c.admissible <==> tseg == 24 && up == 0)
      && (c.admissible ==> c.error == 0 && c.sptError == 4320)
  {
    if tseg == 24 {
      CandidateFor(UNMET, 24, up, 64 + up);
      assert Rate(8_000_000, 24, 64) == 5000 && UpdateSpt(LIMITS, 5000, 24).spt == 680;
    } else {
      FewerQuantaNeedMore(tseg);
      NoMoreThanTheClock(tseg);
      CandidateFor(UNMET, tseg, up, 8_000_000 / ((1 + tseg) * 5000) + up);
    }
  }

  lemma UnmetInOrder(i: nat)
    requires i < |Candidates(UNMET)|
    ensures var c := Candidates(UNMET)[i];
      && (c.admissible <==> i == 1)
      && (c.admissible ==> c.error == 0 && c.sptError == 4320)
  {
    var x := First(UNMET) - i;
    CandidateIndex(UNMET, x);
    UnmetCandidate(x / 2, x % 2);
  }

  /** Such a request makes the calculation divide by zero. */
  lemma FaultIsReached()
    ensures Faults(Candidates(UNMET))
  {
    var cs := Candidates(UNMET);
    UnmetInOrder(1);
    assert Exact(cs[1]);
    forall i | 0 <= i < |cs| ensures PassedOver(cs, i) { UnmetInOrder(i); }
  }

  /** The same clock and sample point, with 500 kbit/s. */
  const PASSED_OVER := Goal(LIMITS, 8_000_000, 500_000, 5000)

  /** No split of this controller comes near a sample point of 5000. */
  lemma FarOff(tseg: nat)
    requires 5 <= tseg <= 24
    ensures Abs(Int(5000 - UpdateSpt(LIMITS, 5000, tseg).spt)) > 2000
  {
    if tseg == 5 {
      assert UpdateSpt(LIMITS, 5000, 5).spt == 2833;
    } else if tseg == 6 {
      assert UpdateSpt(LIMITS, 5000, 6).spt == 2428;
    } else if tseg == 7 {
      assert UpdateSpt(LIMITS, 5000, 7).spt == 2125;
    } else {
      SptInsideBit(LIMITS, 5000, tseg);
    }
  }

  lemma TooManyQuanta(tseg: nat)
    requires 16 <= tseg
    ensures 8_000_000 / ((1 + tseg) * 500_000) == 0
  {
    SmallOverLarge(8_000_000, (1 + tseg) * 500_000);
  }

  lemma SmallOverLarge(a: nat, b: nat)
    requires a < b
    ensures a / b == 0
  {
  }

  lemma FartherOff(tseg: nat)
    requires 16 < tseg
    ensures Rate(8_000_000, tseg, 1) < 470_588
  {
    DivBelow(8_000_000, 1 * (1 + tseg), 470_588);
  }

  lemma WithQuanta(tseg: nat, up: nat, ideal: nat)
    requires 5 <= tseg <= 24 && up <= 1 && ideal == 8_000_000 / ((1 + tseg) * 500_000) <= 2
    ensures var c := CandidateAt(PASSED_OVER, 2 * tseg + up);
      && !c.zero && c.sptError > 2000 && c.tseg == tseg && c.brp == ideal + up
      && (c.admissible <==> 1 <= c.brp)
      && (c.admissible ==> c.error == Abs(500_000 - Rate(8_000_000, tseg, c.brp)))
  {
    CandidateFor(PASSED_OVER, tseg, up, ideal + up);
    FarOff(tseg);
  }

  lemma FewQuanta(tseg: nat)
    requires 5 <= tseg
    ensures 8_000_000 / ((1 + tseg) * 500_000) <= 2
  {
    DivBelow(8_000_000, (1 + tseg) * 500_000, 3);
  }

  /** Until 16 quanta with prescaler 1 meet the bitrate, 17 quanta with prescaler 1 are the closest. */
  lemma PassedOverCandidate(tseg: nat, up: nat)
    requires 5 <= tseg <= 24 && up <= 1
    ensures var c := CandidateAt(PASSED_OVER, 2 * tseg + up);
      && !c.zero && c.sptError > 2000
      && (tseg == 15 && up == 0 ==> Exact(c))
      && (tseg == 16 && up == 1 ==> c.admissible && c.tseg == 16 && c.brp == 1 && c.error == 29412)
      && (2 * tseg + up > 30 && 2 * tseg + up != 33 && c.admissible ==> c.error > 29412)
  {
    if tseg == 15 {
      WithQuanta(15, up, 1);
      assert Rate(8_000_000, 15, 1) == 500_000 && Rate(8_000_000, 15, 2) == 250_000;
    } else if tseg == 16 {
      WithQuanta(16, up, 0);
      assert Rate(8_000_000, 16, 1) == 470_588;
    } else if tseg > 16 {
      TooManyQuanta(tseg);
      WithQuanta(tseg, up, 0);
      FartherOff(tseg);
    } else {
      FewQuanta(tseg);
      WithQuanta(tseg, up, 8_000_000 / ((1 + tseg) * 500_000));
    }
  }

  lemma PassedOverAt(i: nat)
    requires i < |Candidates(PASSED_OVER)|
    ensures var c := Candidates(PASSED_OVER)[i];
      && !c.zero && c.sptError > 2000
      && (i == 19 ==> Exact(c))
      && (i == 16 ==> c.admissible && c.tseg == 16 && c.brp == 1 && c.error == 29412)
      && (i < 19 && i != 16 && c.admissible ==> c.error > 29412)
  {
    var x := First(PASSED_OVER) - i;
    CandidateIndex(PASSED_OVER, x);
    PassedOverCandidate(x / 2, x % 2);
  }

  lemma PassedOverIsUnchecked()
    ensures Unchecked(Candidates(PASSED_OVER)) && !DividesByZero(Candidates(PASSED_OVER))
    ensures forall w: nat :: FirstBest(Candidates(PASSED_OVER), |Candidates(PASSED_OVER)|, w) ==> w == 16
  {
    var cs := Candidates(PASSED_OVER);
    forall i | 0 <= i < |cs|
      ensures !cs[i].zero && cs[i].sptError > 2000
      ensures i < 19 && i != 16 && cs[i].admissible ==> cs[i].error > 29412
    {
      PassedOverAt(i);
    }
    PassedOverAt(16);
    PassedOverAt(19);
    assert !PassedOver(cs, 16);
    assert Early(cs, 16);
  }

  /** Such a request succeeds with 470588 bit/s, which is more than five percent off. */
  lemma UncheckedIsReached(bt: Timing, w: nat, t: Timing)
    requires Words(bt) && bt.bitrate == 500_000 && bt.samplePoint == 5000
    requires Chose(Candidates(PASSED_OVER), w, LIMITS, 8_000_000, bt, t)
    ensures Unchecked(Candidates(PASSED_OVER)) && !DividesByZero(Candidates(PASSED_OVER))
    ensures t.bitrate == 470_588 && !Tolerable(500_000, 500_000 - t.bitrate)
  {
    PassedOverIsUnchecked();
    PassedOverAt(16);
    SplitLimits(LIMITS, 5000, 16);
  }

  /** The same clock and a bitrate of which an even multiple is no multiple at all in 32 bits. */
  const WRAPPED := Goal(LIMITS, 8_000_000, 0x8000_0000, 750)

  lemma WrappedCandidates()
    ensures CandidateAt(WRAPPED, 47).zero
    ensures !Perfect(CandidateAt(WRAPPED, 48)) && !Perfect(CandidateAt(WRAPPED, 49))
  {
    assert Rate(8_000_000, 24, 1) == 320_000;
  }

  /** The third candidate divides by 24 times that bitrate. */
  lemma ZeroIsReached()
    ensures DividesByZero(Candidates(WRAPPED))
  {
    var cs := Candidates(WRAPPED);
    CandidateIndex(WRAPPED, 49);
    CandidateIndex(WRAPPED, 48);
    CandidateIndex(WRAPPED, 47);
    WrappedCandidates();
    assert cs[2].zero && NonePerfect(cs, 2);
  }
}
