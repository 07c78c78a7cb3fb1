/**
 * One trigger cycle of a detector with its sample counter and its 60-deep delayed copy of the data.
 * Edge 0 of a cycle is the trigger; `o` is the edge on which the baseline gate opens, and the edges
 * after it are counted from there: edge e takes in sample v[o + e].
 */
module DetectorCycle {
  import opened Words
  import GenGates
  import CalcBaseline
  import CalcIntegral
  import FindPeak
  import CalcFwhm
  import BeamStats
  import SampleNumber

  /** Depth of the shift RAM that delays the samples for the width search. */
  const DELAY := 60

  /** Edges after the opening edge by which the integral and the peak are latched. */
  const LATCHED := 95

  datatype State = State(num: SampleNumber.Regs, line: seq<Signed16>, stats: BeamStats.State)

  function Delayed(line: seq<Signed16>): Signed16 {
    if |line| == DELAY then line[DELAY - 1] else 0
  }

  function Shift(line: seq<Signed16>, x: Signed16): seq<Signed16> {
    if |line| == DELAY then [x] + line[..DELAY - 1] else line
  }

  function Next(d: State, trig: bool, adc: Signed16, gateStart: Word32): State {
    State(SampleNumber.Next(d.num, trig), Shift(d.line, adc),
          BeamStats.Next(d.stats, BeamStats.Input(trig, adc, Delayed(d.line), gateStart, d.num.sampleNum)))
  }

  /** The state after edge n of a cycle whose only trigger is at edge 0. */
  function Cycle(d: State, v: seq<Signed16>, gateStart: Word32, n: nat): State
    requires n < |v|
  {
    if n == 0 then Next(d, true, v[0], gateStart)
    else Next(Cycle(d, v, gateStart, n - 1), false, v[n], gateStart)
  }

  /**
   * What the trigger must find, the width search aside: no baseline or sum under way, and the gates idle
   * or still waiting for their sample number.
   */
  predicate Receptive(d: State, gateStart: Word32) {
    && |d.line| == DELAY
    && (d.stats.gates.phase.Idle? || (GenGates.Waiting(d.stats.gates) && d.num.sampleNum < gateStart))
    && d.stats.base.phase.Idle? && d.stats.integ.phase.Idle? && d.stats.integ.accum == 0
  }

  // ----- what the detector ought to compute -----

  /** The block average of the 31 samples at edges 2..32; the sum is taken modulo 2^16. */
  function Mean(v: seq<Signed16>, o: nat): Signed16
    requires o + LATCHED < |v|
  {
    WrapSigned16(Sum(v[o + 2..o + 33])) / 32
  }

  /** The baseline register as seen at edge j: cleared by the trigger, then the mean from edge 35 on. */
  function BaselineAt(v: seq<Signed16>, o: nat, j: nat): Signed16
    requires o + LATCHED < |v|
  {
    if j <= 34 then 0 else Mean(v, o)
  }

  function Term(v: seq<Signed16>, o: nat, j: nat): int
    requires o + LATCHED < |v| && o + j < |v|
  {
    Max(0, v[o + j] - BaselineAt(v, o, j))
  }

  /** The sum of k clipped samples from edge 34 on. */
  function TermSum(v: seq<Signed16>, o: nat, k: nat): int
    requires o + LATCHED < |v| && k <= 59
  {
    if k == 0 then 0 else TermSum(v, o, k - 1) + Term(v, o, 33 + k)
  }

  /** The charge of the cycle: 59 consecutive samples above the baseline register of the same clock. */
  function Charge(v: seq<Signed16>, o: nat): int
    requires o + LATCHED < |v|
  {
    TermSum(v, o, 59)
  }

  lemma {:induction false} TermSumBounds(v: seq<Signed16>, o: nat, k: nat)
    requires o + LATCHED < |v| && k <= 59
    ensures 0 <= TermSum(v, o, k) <= k * 65535
  {
    if k > 0 {
      TermSumBounds(v, o, k - 1);
    }
  }

  /**
   * m is the largest of the floor and the samples at edges lo..hi of the cycle, and num is the sample
   * number at the first of those edges to attain it, or 0 when none rises above the floor.
   */
  ghost predicate PeakOver(v: seq<Signed16>, lo: nat, hi: int, m: int, num: Word32)
    requires hi < |v|
  {
    && m >= -32000
    && (forall k :: lo <= k <= hi ==> v[k] <= m)
    && if m == -32000 then num == 0
       else exists p :: lo <= p <= hi && v[p] == m && num == Wrap32(p - 1) && forall k :: lo <= k < p ==> v[k] < m
  }

  // ----- where each part stands after edge o + e -----

  predicate BaselineStands(b: CalcBaseline.Regs, v: seq<Signed16>, o: nat, e: nat)
    requires o + LATCHED < |v|
  {
    && b.phase == (if 1 <= e <= 32 then CalcBaseline.Accumulating else CalcBaseline.Idle)
    && (e == 0 || e >= 34 ==> !b.startLast)
    && (1 <= e <= 32 ==> b.count == e - 1 && b.accum == WrapSigned16(Sum(v[o + 2..o + e + 1])))
    && (e == 0 ==> b.accum == 0)
    && b.accumLat == (if e <= 32 then 0 else Mean(v, o))
    && b.baseline == BaselineAt(v, o, e + 1)
    && b.accumVal == (e == 33) && (e > 0 ==> b.baselineVal == (e == 34))
  }

  predicate IntegralStands(c: CalcIntegral.Regs, v: seq<Signed16>, o: nat, e: nat)
    requires o + LATCHED < |v| && o + e < |v|
  {
    && (e >= 1 ==> c.raw == v[o + e] - BaselineAt(v, o, e))
    && (e >= 2 ==> c.clipped == Term(v, o, e - 1))
    && c.phase == (if 35 <= e < LATCHED then CalcIntegral.Accumulating else CalcIntegral.Idle)
    && (e <= 34 || e > LATCHED ==> !c.startLast)
    && (35 <= e < LATCHED ==> c.count == e - 35)
    && c.accum == (if 35 <= e < LATCHED then TermSum(v, o, e - 35) else 0)
    && c.accumLat == (if e < LATCHED then 0 else Charge(v, o))
    && c.accumVal == (e == LATCHED)
  }

  ghost predicate PeakStands(p: FindPeak.Regs, v: seq<Signed16>, o: nat, e: nat)
    requires o + LATCHED < |v| && o + e < |v|
  {
    && p.phase == (if 35 <= e < LATCHED then FindPeak.GateActive else FindPeak.Idle)
    && p.peakVal == (e == LATCHED)
    && PeakOver(v, o + 36, o + Min(e, LATCHED), p.maxAdc, p.peakSampNum)
  }

  predicate LineStands(line: seq<Signed16>, v: seq<Signed16>, n: nat)
    requires n < |v|
  {
    |line| == DELAY && forall i :: 0 <= i < DELAY && i <= n ==> line[i] == v[n - i]
  }

  /** The detector after edge o + e, the width search aside. */
  ghost predicate Stands(d: State, v: seq<Signed16>, o: nat, e: nat)
    requires o + LATCHED < |v| && o + e < |v|
  {
    && d.num.sampleNum == Wrap32(o + e)
    && LineStands(d.line, v, o + e)
    && GenGates.Open(d.stats.gates, e)
    && BaselineStands(d.stats.base, v, o, e)
    && IntegralStands(d.stats.integ, v, o, e)
    && PeakStands(d.stats.peak, v, o, e)
  }

  lemma StepBaseline(b: CalcBaseline.Regs, g: GenGates.Regs, v: seq<Signed16>, o: nat, e: nat)
    requires o + LATCHED < |v| && o + e + 1 < |v|
    requires BaselineStands(b, v, o, e) && GenGates.Open(g, e)
    ensures BaselineStands(CalcBaseline.Next(b, false, g.baselineGate, v[o + e + 1]), v, o, e + 1)
  {
    if 1 <= e < 32 {
      assert v[o + 2..o + e + 2] == v[o + 2..o + e + 1] + [v[o + e + 1]];
      SumAppend(v[o + 2..o + e + 1], v[o + e + 1]);
      WrapSignedAdd(Sum(v[o + 2..o + e + 1]), v[o + e + 1]);
    }
  }

  lemma WrapSignedAdd(a: int, b: int)
    ensures WrapSigned16(WrapSigned16(a) + b) == WrapSigned16(a + b)
  {
  }

  lemma StepIntegral(c: CalcIntegral.Regs, b: CalcBaseline.Regs, g: GenGates.Regs, v: seq<Signed16>, o: nat, e: nat)
    requires o + LATCHED < |v| && o + e + 1 < |v|
    requires IntegralStands(c, v, o, e) && b.baseline == BaselineAt(v, o, e + 1) && GenGates.Open(g, e)
    ensures IntegralStands(CalcIntegral.Next(c, false, g.integralGate, b.baseline, v[o + e + 1]), v, o, e + 1)
  {
    hide Mean;
    if 35 <= e < LATCHED - 1 {
      TermSumBounds(v, o, e - 34);
    }
  }

  lemma StepPeak(p: FindPeak.Regs, g: GenGates.Regs, v: seq<Signed16>, o: nat, e: nat)
    requires o + LATCHED < |v| && o + e + 1 < |v|
    requires PeakStands(p, v, o, e) && GenGates.Open(g, e)
    ensures PeakStands(FindPeak.Next(p, false, g.integralGate, v[o + e + 1], Wrap32(o + e)), v, o, e + 1)
  {
    var x := v[o + e + 1];
    if 35 <= e < LATCHED && x > p.maxAdc {
      PeakMoves(v, o + 36, o + e, p.maxAdc, p.peakSampNum);
    }
  }

  lemma PeakMoves(v: seq<Signed16>, lo: nat, hi: nat, m: int, num: Word32)
    requires lo <= hi + 1 < |v| && PeakOver(v, lo, hi, m, num) && v[hi + 1] > m
    ensures PeakOver(v, lo, hi + 1, v[hi + 1], Wrap32(hi))
  {
  }

  lemma StepLine(line: seq<Signed16>, v: seq<Signed16>, n: nat)
    requires n + 1 < |v| && LineStands(line, v, n)
    ensures LineStands(Shift(line, v[n + 1]), v, n + 1)
  {
  }

  lemma StepStands(d: State, v: seq<Signed16>, gateStart: Word32, o: nat, e: nat)
    requires o == gateStart + 1 && o + LATCHED < |v| && o + e + 1 < |v| && Stands(d, v, o, e)
    ensures Stands(Next(d, false, v[o + e + 1], gateStart), v, o, e + 1)
  {
    hide GenGates.Open, GenGates.Next, BaselineStands, IntegralStands, CalcBaseline.Next, CalcIntegral.Next;
    hide FindPeak.Next, PeakStands, LineStands, Shift, Delayed, BaselineAt, CalcFwhm.Next, SampleNumber.Next, Wrap32;
    GenGates.StepOpen(d.stats.gates, e, d.num.sampleNum, gateStart);
    StepBaseline(d.stats.base, d.stats.gates, v, o, e);
    BaselineSeen(d.stats.base, v, o, e);
    StepIntegral(d.stats.integ, d.stats.base, d.stats.gates, v, o, e);
    StepPeak(d.stats.peak, d.stats.gates, v, o, e);
    StepLine(d.line, v, o + e);
    StepNumber(d.num, o + e);
  }

  lemma StepNumber(num: SampleNumber.Regs, n: nat)
    requires num.sampleNum == Wrap32(n)
    ensures SampleNumber.Next(num, false).sampleNum == Wrap32(n + 1)
  {
  }

  lemma BaselineSeen(b: CalcBaseline.Regs, v: seq<Signed16>, o: nat, e: nat)
    requires o + LATCHED < |v| && BaselineStands(b, v, o, e)
    ensures b.baseline == BaselineAt(v, o, e + 1)
  {
  }

  // ----- from the trigger to the opening edge -----

  /** The detector n edges after the trigger while the gates wait for their sample number. */
  ghost predicate Waits(d: State, v: seq<Signed16>, n: nat)
    requires n < |v|
  {
    && d.num.sampleNum == Wrap32(n)
    && LineStands(d.line, v, n)
    && GenGates.Waiting(d.stats.gates)
    && d.stats.base.phase.Idle? && d.stats.base.accum == 0 && d.stats.base.accumLat == 0
    && d.stats.integ.phase.Idle? && d.stats.integ.accum == 0 && d.stats.integ.accumLat == 0
    && d.stats.peak == FindPeak.Regs(FindPeak.Idle, FindPeak.FLOOR, 0, d.stats.peak.peakVal)
    && (n > 0 ==> !d.stats.base.startLast && !d.stats.integ.startLast && !d.stats.peak.peakVal)
  }

  lemma TriggerWaits(d: State, v: seq<Signed16>, gateStart: Word32)
    requires Receptive(d, gateStart) && v != []
    ensures Waits(Next(d, true, v[0], gateStart), v, 0)
  {
  }

  lemma StepWaits(d: State, v: seq<Signed16>, gateStart: Word32, n: nat)
    requires n + 1 < |v| && n < gateStart && Waits(d, v, n)
    ensures Waits(Next(d, false, v[n + 1], gateStart), v, n + 1)
  {
    StepLine(d.line, v, n);
  }

  lemma OpenStands(d: State, v: seq<Signed16>, gateStart: Word32)
    requires gateStart + 1 + LATCHED < |v| && Waits(d, v, gateStart)
    ensures Stands(Next(d, false, v[gateStart + 1], gateStart), v, gateStart + 1, 0)
  {
    StepLine(d.line, v, gateStart);
  }

  lemma {:induction false} CycleWaits(d: State, v: seq<Signed16>, gateStart: Word32, n: nat)
    requires Receptive(d, gateStart) && n <= gateStart && n < |v|
    ensures Waits(Cycle(d, v, gateStart, n), v, n)
  {
    hide Waits, Next, Receptive;
    if n == 0 {
      TriggerWaits(d, v, gateStart);
    } else {
      CycleWaits(d, v, gateStart, n - 1);
      StepWaits(Cycle(d, v, gateStart, n - 1), v, gateStart, n - 1);
    }
  }

  /** After the opening edge the cycle follows the closed form, for any samples and any gate start. */
  lemma {:induction false} CycleStands(d: State, v: seq<Signed16>, gateStart: Word32, e: nat)
    requires Receptive(d, gateStart) && gateStart + 1 + LATCHED < |v| && gateStart + 1 + e < |v|
    ensures Stands(Cycle(d, v, gateStart, gateStart + 1 + e), v, gateStart + 1, e)
  {
    hide Stands, Next, Waits, Receptive;
    var o := gateStart + 1;
    if e == 0 {
      CycleWaits(d, v, gateStart, gateStart);
      OpenStands(Cycle(d, v, gateStart, gateStart), v, gateStart);
    } else {
      CycleStands(d, v, gateStart, e - 1);
      StepStands(Cycle(d, v, gateStart, o + e - 1), v, gateStart, o, e - 1);
    }
  }

  // ----- what a cycle delivers -----

  /**
   * Once latched, the integral is the charge of this cycle: 59 clipped samples, the first against the
   * cleared baseline and the other 58 against the block average, with nothing wrapped.
   */
  lemma {:induction false} IntegralIsCharge(d: State, v: seq<Signed16>, gateStart: Word32, n: nat)
    requires Receptive(d, gateStart) && gateStart + 1 + LATCHED <= n < |v|
    ensures Cycle(d, v, gateStart, n).stats.integ.accumLat == Charge(v, gateStart + 1)
    ensures 0 <= Charge(v, gateStart + 1) <= 59 * 65535
  {
    TermSumBounds(v, gateStart + 1, 59);
    hide Receptive, Cycle, LineStands, PeakStands, BaselineStands, GenGates.Open, Term, TermSum;
    CycleStands(d, v, gateStart, n - (gateStart + 1));
  }

  /** A cycle up to edge n does not depend on later samples. */
  lemma {:induction false} CycleCausal(d: State, v: seq<Signed16>, more: seq<Signed16>, gateStart: Word32, n: nat)
    requires n < |v|
    ensures Cycle(d, v + more, gateStart, n) == Cycle(d, v, gateStart, n)
  {
    hide Next;
    if n > 0 {
      CycleCausal(d, v, more, gateStart, n - 1);
    }
  }

  /** Before it is latched the integral reads zero, as the trigger left it. */
  lemma {:induction false} IntegralZeroUntilLatched(d: State, v: seq<Signed16>, gateStart: Word32, n: nat)
    requires Receptive(d, gateStart) && n < |v| && n < gateStart + 1 + LATCHED
    ensures Cycle(d, v, gateStart, n).stats.integ.accumLat == 0
  {
    hide Receptive, Cycle, LineStands, Term, TermSum, Charge, PeakStands, BaselineStands, GenGates.Open;
    if n <= gateStart {
      CycleWaits(d, v, gateStart, n);
    } else {
      var more := seq(gateStart + 1 + LATCHED, _ => 0);
      CycleCausal(d, v, more, gateStart, n);
      CycleStands(d, v + more, gateStart, n - (gateStart + 1));
    }
  }

  lemma MeanExact(total: int)
    ensures WrapSigned16(total) / 32 == total / 32 <==> -0x8000 <= total < 0x8000
  {
  }

  /** The baseline is the floor of a 32nd of the 31 gated samples exactly when their sum fits 16 bits. */
  lemma {:induction false} BaselineIsMean(d: State, v: seq<Signed16>, gateStart: Word32, n: nat)
    requires Receptive(d, gateStart) && gateStart + 1 + LATCHED < |v| && gateStart + 35 <= n < |v|
    ensures var total := Sum(v[gateStart + 3..gateStart + 34]);
            Cycle(d, v, gateStart, n).stats.base.baseline == total / 32 <==> -0x8000 <= total < 0x8000
  {
    hide Receptive, Cycle, Sum, LineStands, GenGates.Open, IntegralStands, PeakStands;
    CycleStands(d, v, gateStart, n - (gateStart + 1));
    MeanExact(Sum(v[gateStart + 3..gateStart + 34]));
  }

  /**
   * When the peak strobe rises, the maximum is the largest of the floor and the 60 gated samples, with
   * the sample number of the first to attain it, and the output is that maximum above the baseline.
   */
  lemma {:induction false} PeakIsFirstMaximum(d: State, v: seq<Signed16>, gateStart: Word32)
    requires Receptive(d, gateStart) && gateStart + 1 + LATCHED < |v|
    ensures var o := gateStart + 1;
            var q := Cycle(d, v, gateStart, o + LATCHED).stats;
            && q.peak.peakVal
            && PeakOver(v, o + 36, o + LATCHED, q.peak.maxAdc, q.peak.peakSampNum)
            && FindPeak.Peak(q.peak, q.base.baseline) == q.peak.maxAdc - Mean(v, o)
  {
    CycleStands(d, v, gateStart, LATCHED);
    hide Mean, PeakOver;
  }

  /**
   * The detector takes the next trigger as it should while its gates still wait, and again from the edge
   * on which the integral is latched; one edge later the peak strobe has fallen too.
   */
  lemma {:induction false} ReceptiveAgain(d: State, v: seq<Signed16>, gateStart: Word32, n: nat)
    requires Receptive(d, gateStart) && n < |v| && (n < gateStart || gateStart + 1 + LATCHED <= n)
    ensures Receptive(Cycle(d, v, gateStart, n), gateStart)
    ensures 0 < n < gateStart || gateStart + 1 + LATCHED < n ==> !Cycle(d, v, gateStart, n).stats.peak.peakVal
  {
    hide Term, TermSum, Mean, PeakOver, Cycle;
    if n < gateStart {
      CycleWaits(d, v, gateStart, n);
    } else {
      CycleStands(d, v, gateStart, n - (gateStart + 1));
    }
  }

  /** From the opening edge on each of the three strobes is up on exactly one edge of the cycle. */
  lemma {:induction false} StrobesOnce(d: State, v: seq<Signed16>, gateStart: Word32, e: nat)
    requires Receptive(d, gateStart) && gateStart + 1 + LATCHED < |v| && 0 < e && gateStart + 1 + e < |v|
    ensures var q := Cycle(d, v, gateStart, gateStart + 1 + e).stats;
            (q.base.baselineVal <==> e == 34) && (q.integ.accumVal <==> e == 95) && (q.peak.peakVal <==> e == 95)
  {
    hide Receptive, Cycle, LineStands, PeakOver, GenGates.Open, Mean, Term, TermSum, Charge;
    CycleStands(d, v, gateStart, e);
  }

  /** What a trigger clears in any state, and what it leaves as it is. */
  lemma TriggerClears(d: State, adc: Signed16, gateStart: Word32)
    ensures var q := Next(d, true, adc, gateStart);
            && q.num.sampleNum == 0
            && q.stats.base == d.stats.base.(accum := 0, accumLat := 0, baseline := d.stats.base.accumLat,
                                             baselineVal := d.stats.base.accumVal)
            && q.stats.integ == d.stats.integ.(accumLat := 0, raw := adc - d.stats.base.baseline,
                                               clipped := if d.stats.integ.raw < 0 then 0 else d.stats.integ.raw)
            && q.stats.peak == FindPeak.Regs(FindPeak.Idle, -32000, 0, d.stats.peak.peakVal)
            && q.stats.width == d.stats.width.(raw := Delayed(d.line) - d.stats.base.baseline, above := d.stats.width.raw,
                                               fwhm := 0, fwhmVal := false)
  {
    hide GenGates.Next, Shift, Delayed;
  }

  /** The k-th of the 59 terms of the charge. */
  lemma {:induction false} TermSumIs(v: seq<Signed16>, o: nat, terms: seq<int>, k: nat)
    requires o + LATCHED < |v| && k <= 59 == |terms|
    requires forall i :: 0 <= i < 59 ==> terms[i] == Max(0, v[o + 34 + i] - if i == 0 then 0 else Mean(v, o))
    ensures TermSum(v, o, k) == Sum(terms[..k])
  {
    hide Mean, Sum;
    if k == 0 {
      EmptySum();
    } else {
      TermSumIs(v, o, terms, k - 1);
      assert terms[..k] == terms[..k - 1] + [terms[k - 1]];
      SumAppend(terms[..k - 1], terms[k - 1]);
    }
  }

  lemma EmptySum()
    ensures Sum([]) == 0
  {
  }

  /**
   * The charge spelled out: the first of 59 consecutive samples above zero, each of the other 58 above
   * a 32nd of the sum of 31 earlier samples, rounded down, whatever lies below counting as nothing.
   */
  lemma {:induction false} ChargeIs(v: seq<Signed16>, o: nat, terms: seq<int>)
    requires o + LATCHED < |v| && |terms| == 59
    requires var base := WrapSigned16(Sum(v[o + 2..o + 33])) / 32;
             forall i :: 0 <= i < 59 ==> terms[i] == Max(0, v[o + 34 + i] - if i == 0 then 0 else base)
    ensures Charge(v, o) == Sum(terms)
  {
    hide Sum, TermSum, WrapSigned16;
    TermSumIs(v, o, terms, 59);
    assert terms[..59] == terms;
  }
}
