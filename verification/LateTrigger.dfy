/**
 * Triggers that come too early for a late gate: a trigger inside the integral gate does not stop the
 * sum under way, and the next update takes that earlier sum.
 */
module LateTrigger {
  import opened Words
  import GenGates
  import CalcBaseline
  import CalcIntegral
  import CalcFwhm
  import FindPeak
  import BeamStats
  import Detector = DetectorCycle
  import Updates = WindowedUpdates
  import opened ChargePath

  /** Largest value the integral register can reach here. */
  const CEILING := 60 * 65535

  /**
   * The detector m edges after a trigger that came e edges after the opening one, inside the integral
   * gate: the gates run on, and the sum of at least low runs on until it is latched.
   */
  predicate RunsOn(q: BeamStats.State, e: nat, m: nat, low: int) {
    var c := q.integ;
    && GenGates.Open(q.gates, e + m)
    && 0 <= c.clipped
    && if e + m <= Detector.LATCHED then
         && c.phase.Accumulating? && c.count == e + m - 36
         && low <= c.accum <= c.count * 65535 && 0 <= low
       else
         && c.phase.Idle? && low <= c.accumLat <= CEILING
         && (e + m > Detector.LATCHED + 1 ==> !c.startLast)
  }

  lemma GatesRunOn(g: GenGates.Regs, e: nat, sampleNum: Word32, gateStart: Word32)
    requires GenGates.Open(g, e) && e < GenGates.CLOSE
    ensures GenGates.Open(GenGates.Next(g, true, sampleNum, gateStart), e + 1)
  {
  }

  lemma TriggerRunsOn(d: Detector.State, v: seq<Signed16>, o: nat, e: nat, adc: Signed16, gateStart: Word32)
    requires o + Detector.LATCHED < |v| && 36 <= e <= GenGates.CLOSE && o + e <= |v|
    requires Detector.Stands(d, v, o, e - 1)
    ensures RunsOn(Detector.Next(d, true, adc, gateStart).stats, e, 0, Detector.TermSum(v, o, e - 36))
  {
    Detector.TermSumBounds(v, o, e - 36);
    GatesRunOn(d.stats.gates, e - 1, d.num.sampleNum, gateStart);
    hide GenGates.Open, GenGates.Next, Detector.TermSum, Detector.BaselineStands, Detector.PeakStands, Detector.LineStands;
  }

  lemma StepRunsOn(d: Detector.State, e: nat, m: nat, low: int, adc: Signed16, gateStart: Word32)
    requires 36 <= e && RunsOn(d.stats, e, m, low)
    ensures RunsOn(Detector.Next(d, false, adc, gateStart).stats, e, m + 1, low)
  {
    GenGates.StepOpen(d.stats.gates, e + m, d.num.sampleNum, gateStart);
    assert d.stats.gates.integralGate == (34 <= e + m < GenGates.CLOSE);
    hide GenGates.Open, GenGates.Next;
  }

  /** The second cycle under a trigger inside the integral gate of the first. */
  lemma {:induction false} CycleRunsOn(
      d: Detector.State, all: seq<Signed16>, w: seq<Signed16>, o: nat, e: nat, gateStart: Word32, m: nat)
    requires o + Detector.LATCHED < |all| && 36 <= e <= GenGates.CLOSE && o + e <= |all| && m < |w|
    requires Detector.Stands(d, all, o, e - 1)
    ensures RunsOn(Detector.Cycle(d, w, gateStart, m).stats, e, m, Detector.TermSum(all, o, e - 36))
  {
    hide Detector.Stands, RunsOn, Detector.TermSum, Detector.Next;
    if m == 0 {
      TriggerRunsOn(d, all, o, e, w[0], gateStart);
    } else {
      CycleRunsOn(d, all, w, o, e, gateStart, m - 1);
      StepRunsOn(Detector.Cycle(d, w, gateStart, m - 1), e, m - 1, Detector.TermSum(all, o, e - 36), w[m], gateStart);
    }
  }

  /**
   * The detector m edges after a trigger on the very edge on which the sum of the cycle before would be
   * latched: it is latched one edge later, and the gates, idle by then, wait for the new cycle.
   */
  predicate LatchesLate(d: Detector.State, gateStart: Word32, m: nat, low: int) {
    var g, c := d.stats.gates, d.stats.integ;
    && d.num.sampleNum == Wrap32(m)
    && (if m <= gateStart then GenGates.Waiting(g) else GenGates.Open(g, m - gateStart - 1))
    && if m == 0 then
         c.phase.Accumulating? && c.count == CalcIntegral.ACCUM_LEN && low <= c.accum <= CEILING
       else
         && low <= c.accumLat <= CEILING
         && (if m <= gateStart + 35 then c.phase.Idle? && (m > 1 ==> !c.startLast)
             else c.phase.Accumulating? && c.count == m - gateStart - 36)
  }

  lemma TriggerLatchesLate(d: Detector.State, v: seq<Signed16>, o: nat, adc: Signed16, gateStart: Word32)
    requires o + Detector.LATCHED < |v| && Detector.Stands(d, v, o, Detector.LATCHED - 1)
    ensures LatchesLate(Detector.Next(d, true, adc, gateStart), gateStart, 0, Detector.TermSum(v, o, 59))
  {
    hide Detector.TermSum, Detector.BaselineStands, Detector.PeakStands, Detector.LineStands;
    Detector.TermSumBounds(v, o, 59);
  }

  lemma StepLatchesLate(d: Detector.State, gateStart: Word32, m: nat, low: int, adc: Signed16)
    requires gateStart > 0 && m < gateStart + Detector.LATCHED && LatchesLate(d, gateStart, m, low)
    ensures LatchesLate(Detector.Next(d, false, adc, gateStart), gateStart, m + 1, low)
  {
    hide CalcBaseline.Next, FindPeak.Next, CalcFwhm.Next, Detector.Shift, Detector.Delayed;
  }

  lemma {:induction false} CycleLatchesLate(
      d: Detector.State, all: seq<Signed16>, w: seq<Signed16>, o: nat, gateStart: Word32, m: nat)
    requires o + Detector.LATCHED < |all| && 0 < gateStart && m <= gateStart + Detector.LATCHED && m < |w|
    requires Detector.Stands(d, all, o, Detector.LATCHED - 1)
    ensures LatchesLate(Detector.Cycle(d, w, gateStart, m), gateStart, m, Detector.TermSum(all, o, 59))
  {
    hide Detector.Stands, LatchesLate, Detector.TermSum, Detector.Next;
    if m == 0 {
      TriggerLatchesLate(d, all, o, w[0], gateStart);
    } else {
      CycleLatchesLate(d, all, w, o, gateStart, m - 1);
      StepLatchesLate(Detector.Cycle(d, w, gateStart, m - 1), gateStart, m - 1, Detector.TermSum(all, o, 59), w[m]);
    }
  }

  /**
   * When a trigger falls on one of the edges 36 to 95 after the opening one, the next update takes at
   * least what the cycle before had summed by then, from samples before that trigger. On edge 95 that is
   * the whole sum.
   */
  lemma {:induction false} TakesEarlierSum(s: State, v: seq<Signed16>, w: seq<Signed16>, p: Params, e: nat)
    requires Ready(s, p.gateStart) && |v| >= Updates.SPACING && |w| > TAKES
    requires 36 <= e <= Detector.LATCHED && |v| == p.gateStart + 1 + e
    ensures var second := Cycle(s, v, p, |v| - 1);
            Cycle(second, w, p, TAKES).upd.acc.regs.newSample
            >= Detector.TermSum(v + w, p.gateStart + 1, e - 36)
  {
    hide Detector.Receptive, Detector.Stands, Detector.Cycle, Cycle, Updates.OnSchedule, Detector.TermSum, RunsOn, LatchesLate;
    var second := Cycle(s, v, p, |v| - 1);
    var o, low := p.gateStart + 1, Detector.TermSum(v + w, p.gateStart + 1, e - 36);
    CycleParts(s, v, p, |v| - 1);
    CycleParts(second, w, p, TAKES - 1);
    Detector.CycleCausal(s.det, v, w, p.gateStart, |v| - 1);
    Detector.CycleStands(s.det, v + w, p.gateStart, e - 1);
    TakesOnSchedule(second, w, p, TAKES - 1);
    var last := Cycle(second, w, p, TAKES - 1);
    if e <= GenGates.CLOSE {
      CycleRunsOn(second.det, v + w, w, o, e, p.gateStart, TAKES - 1);
      SampleAtLeast(last, e, low);
    } else {
      CycleLatchesLate(second.det, v + w, w, o, p.gateStart, TAKES - 1);
      LateSampleAtLeast(last, p.gateStart, low);
    }
  }

  lemma LateSampleAtLeast(s: State, gateStart: Word32, low: int)
    requires LatchesLate(s.det, gateStart, TAKES - 1, low)
    ensures Sample(s) >= low
  {
  }

  lemma SampleAtLeast(s: State, e: nat, low: int)
    requires 36 <= e && RunsOn(s.det.stats, e, TAKES - 1, low)
    ensures Sample(s) >= low
  {
  }

  lemma {:induction false} TermSumAtLeastFirst(v: seq<Signed16>, o: nat, k: nat)
    requires o + Detector.LATCHED < |v| && 1 <= k <= 59
    ensures Detector.TermSum(v, o, k) >= v[o + 34]
  {
    if k > 1 {
      TermSumAtLeastFirst(v, o, k - 1);
    }
  }

  /**
   * So zero above 1908 needs the spacing: at gate start 1950, samples of 1000 and triggers 2010 clocks
   * apart, the second update takes at least 1000 although its own cycle never opened a gate.
   */
  lemma {:induction false} ShortSpacingTakesEarlier(s: State, w: seq<Signed16>, L: Word13)
    requires Ready(s, 1950) && |w| > TAKES
    ensures var p := Params(1950, L, 0);
            var second := Cycle(s, seq(2010, _ => 1000), p, 2009);
            Cycle(second, w, p, TAKES).upd.acc.regs.newSample >= 1000 > Taken(w, 1950, 0)
  {
    hide Ready, Cycle, Detector.TermSum;
    var v: seq<Signed16> := seq(2010, _ => 1000);
    TakesEarlierSum(s, v, w, Params(1950, L, 0), 59);
    TermSumAtLeastFirst(v + w, 1951, 23);
  }
}
