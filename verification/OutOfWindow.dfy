/**
 * The masking of the out-of-window search: while one of four gates is up, one per detector, the search
 * sees zero instead of the sample.
 */
module OutOfWindow {
  import opened Words
  import CalcBaseline
  import CalcIntegral
  import GenGate
  import SampleNumber
  import Detector = DetectorCycle

  /** Width given to each of the four masking gates. */
  const MASK_WIDTH := 92

  /** A masking gate and the sample counter it compares with. */
  datatype Masker = Masker(num: SampleNumber.Regs, gate: GenGate.Regs)

  function Next(m: Masker, trig: bool, gateStart: Word32): Masker {
    Masker(SampleNumber.Next(m.num, trig), GenGate.Next(m.gate, trig, m.num.sampleNum, gateStart, MASK_WIDTH))
  }

  /** The masker after edge n of a cycle whose only trigger is at edge 0. */
  function Cycle(m: Masker, gateStart: Word32, n: nat): Masker {
    if n == 0 then Next(m, true, gateStart) else Next(Cycle(m, gateStart, n - 1), false, gateStart)
  }

  /** The masker after edge n, when the opening edge is o: up for the samples at the 93 edges after o. */
  predicate MaskAt(m: Masker, o: nat, n: nat) {
    && m.num.sampleNum == Wrap32(n)
    && m.gate == if n < o then GenGate.Regs(GenGate.Triggered, MASK_WIDTH, false)
                 else if n <= o + MASK_WIDTH then GenGate.Regs(GenGate.PulseHi, o + MASK_WIDTH - n, true)
                 else GenGate.Regs(GenGate.Idle, 0, false)
  }

  lemma StepMask(m: Masker, gateStart: Word32, n: nat)
    requires MaskAt(m, gateStart + 1, n)
    ensures MaskAt(Next(m, false, gateStart), gateStart + 1, n + 1)
  {
  }

  lemma {:induction false} MaskStands(m: Masker, gateStart: Word32, n: nat)
    requires m.gate.phase.Idle?
    ensures MaskAt(Cycle(m, gateStart, n), gateStart + 1, n)
  {
    if n > 0 {
      MaskStands(m, gateStart, n - 1);
      hide MaskAt, Next;
      StepMask(Cycle(m, gateStart, n - 1), gateStart, n - 1);
    }
  }

  /** The word the search sees at edge n: the sample, or zero while any gate was up before the edge. */
  function Seen(ms: seq<Masker>, starts: seq<Word32>, v: seq<Signed16>, n: nat): Signed16
    requires |ms| == |starts| && 0 < n < |v|
  {
    if exists i :: 0 <= i < |ms| && Cycle(ms[i], starts[i], n - 1).gate.pulse then 0 else v[n]
  }

  /** The detector adds the sample at edge n to its baseline sum on that very edge. */
  predicate EntersBaseline(d: Detector.State, v: seq<Signed16>, gateStart: Word32, n: nat)
    requires 0 < n < |v|
  {
    CalcBaseline.Sums(Detector.Cycle(d, v, gateStart, n - 1).stats.base, false)
  }

  /** The difference formed from the sample at edge n is added to the integral two edges later. */
  predicate EntersIntegral(d: Detector.State, v: seq<Signed16>, gateStart: Word32, n: nat)
    requires 0 < n && n + 2 < |v|
  {
    CalcIntegral.Sums(Detector.Cycle(d, v, gateStart, n + 1).stats.integ, false)
  }

  /** The peak finder compares the sample at edge n. */
  predicate EntersPeak(d: Detector.State, v: seq<Signed16>, gateStart: Word32, n: nat)
    requires 0 < n < |v|
  {
    Detector.Cycle(d, v, gateStart, n - 1).stats.peak.phase.GateActive?
  }

  lemma {:induction false} SumsWhen(d: Detector.State, v: seq<Signed16>, gateStart: Word32, n: nat)
    requires Detector.Receptive(d, gateStart) && n < |v|
    ensures var q, o := Detector.Cycle(d, v, gateStart, n).stats, gateStart + 1;
            && (CalcBaseline.Sums(q.base, false) <==> o + 1 <= n <= o + 31)
            && (CalcIntegral.Sums(q.integ, false) <==> o + 35 <= n <= o + 93)
            && (q.peak.phase.GateActive? <==> o + 35 <= n <= o + 94)
  {
    hide Detector.Receptive, Detector.Cycle, Detector.LineStands, Detector.PeakOver;
    hide Detector.Term, Detector.TermSum, Detector.Charge, Detector.Mean, Sum;
    var o := gateStart + 1;
    if n < o {
      Detector.CycleWaits(d, v, gateStart, n);
    } else {
      var more := seq(o + Detector.LATCHED, _ => 0);
      Detector.CycleCausal(d, v, more, gateStart, n);
      Detector.CycleStands(d, v + more, gateStart, n - o);
    }
  }

  /**
   * Masking: in a cycle that finds detectors and gates idle, for any four gate starts, every sample
   * that enters the baseline or the integral sum of one of the detectors is zero to the search.
   */
  lemma {:induction false} SummedSamplesAreMasked(
      ds: seq<Detector.State>, ms: seq<Masker>, starts: seq<Word32>,
      vs: seq<seq<Signed16>>, v: seq<Signed16>, i: nat, n: nat)
    requires |ds| == |ms| == |starts| == |vs| == 4 && i < 4
    requires Detector.Receptive(ds[i], starts[i]) && ms[i].gate.phase.Idle?
    requires 0 < n && n + 2 < |v| == |vs[i]|
    requires EntersBaseline(ds[i], vs[i], starts[i], n) || EntersIntegral(ds[i], vs[i], starts[i], n)
    ensures Seen(ms, starts, v, n) == 0
  {
    hide Detector.Receptive, Detector.Cycle, Cycle, CalcBaseline.Sums, CalcIntegral.Sums;
    SumsWhen(ds[i], vs[i], starts[i], n - 1);
    SumsWhen(ds[i], vs[i], starts[i], n + 1);
    MaskStands(ms[i], starts[i], n - 1);
  }

  /** The mask is two samples short of the peak gate: it leaves exactly the last two of its 60 samples. */
  lemma {:induction false} PeakSamplesMaskedButTwo(
      d: Detector.State, m: Masker, gateStart: Word32, v: seq<Signed16>, n: nat)
    requires Detector.Receptive(d, gateStart) && m.gate.phase.Idle? && 0 < n < |v|
    requires EntersPeak(d, v, gateStart, n)
    ensures Seen([m], [gateStart], v, n) == v[n] <==> v[n] == 0 || n > gateStart + 1 + 93
  {
    hide Detector.Receptive, Detector.Cycle, Cycle;
    SumsWhen(d, v, gateStart, n - 1);
    MaskStands(m, gateStart, n - 1);
    assert [m][0] == m && [gateStart][0] == gateStart;
  }

  /**
   * Why both must be idle: a trigger on the one clock between the end of the mask and the end of the
   * detector's gates starts the mask but not the gates.
   */
  lemma {:induction false} LateTriggerSplits(
      d: Detector.State, m: Masker, gateStart: Word32, v: seq<Signed16>, x: Signed16)
    requires Detector.Receptive(d, gateStart) && m.gate.phase.Idle? && gateStart + 1 + Detector.LATCHED < |v|
    ensures var n := gateStart + 1 + 93;
            && Detector.Next(Detector.Cycle(d, v, gateStart, n), true, x, gateStart).stats.gates.phase.Idle?
            && Next(Cycle(m, gateStart, n), true, gateStart).gate.phase.Triggered?
  {
    hide Detector.Receptive, Detector.Cycle, Cycle, Detector.LineStands, Detector.PeakStands;
    hide Detector.BaselineStands, Detector.IntegralStands;
    Detector.CycleStands(d, v, gateStart, 93);
    MaskStands(m, gateStart, gateStart + 1 + 93);
  }
}
