/** One pulse detector: gates, baseline, integral, peak and width, wired together. */
module BeamStats {
  import opened Words
  import GenGates
  import CalcBaseline
  import CalcIntegral
  import FindPeak
  import CalcFwhm

  datatype State = State(
    gates: GenGates.Regs, base: CalcBaseline.Regs, integ: CalcIntegral.Regs,
    peak: FindPeak.Regs, width: CalcFwhm.Regs)

  datatype Input = Input(trig: bool, adc: Signed16, adcDly: Signed16, gateStart: Word32, sampleNum: Word32)

  /** Every part reads the outputs the other parts held before the edge. */
  function Next(s: State, i: Input): State {
    var baseline := s.base.baseline;
    State(
      GenGates.Next(s.gates, i.trig, i.sampleNum, i.gateStart),
      CalcBaseline.Next(s.base, i.trig, s.gates.baselineGate, i.adc),
      CalcIntegral.Next(s.integ, i.trig, s.gates.integralGate, baseline, i.adc),
      FindPeak.Next(s.peak, i.trig, s.gates.integralGate, i.adc, i.sampleNum),
      CalcFwhm.Next(s.width, i.trig, s.peak.peakVal, baseline, FindPeak.Peak(s.peak, baseline), i.adcDly))
  }

  class Entity {
    const gates: GenGates.Entity
    const base: CalcBaseline.Entity
    const integ: CalcIntegral.Entity
    const peak: FindPeak.Entity
    const width: CalcFwhm.Entity

    ghost function View(): State
      reads gates, base, integ, peak, width
    {
      State(gates.View(), base.View(), integ.View(), peak.View(), width.View())
    }

    constructor ()
      ensures fresh(gates) && fresh(base) && fresh(integ) && fresh(peak) && fresh(width)
    {
      gates := new GenGates.Entity();
      base := new CalcBaseline.Entity();
      integ := new CalcIntegral.Entity();
      peak := new FindPeak.Entity();
      width := new CalcFwhm.Entity();
    }

    /** The wires are sampled first, so the order in which the parts are clocked does not matter. */
    method Clock(i: Input)
      modifies gates, base, integ, peak, width
      ensures View() == Next(old(View()), i)
    {
      var baselineGate, integralGate := gates.baselineGate, gates.integralGate;
      var baseline, peakVal, height := base.baseline, peak.peakVal, peak.maxAdc - base.baseline;
      gates.Clock(i.trig, i.sampleNum, i.gateStart);
      base.Clock(i.trig, baselineGate, i.adc);
      integ.Clock(i.trig, integralGate, baseline, i.adc);
      peak.Clock(i.trig, integralGate, i.adc, i.sampleNum);
      width.Clock(i.trig, peakVal, baseline, height, i.adcDly);
    }
  }
}
