/** The largest sample under a gate, and its sample number. */
module FindPeak {
  import opened Words

  /** Value the running maximum starts from at every trigger. */
  const FLOOR := -32000

  datatype Phase = Idle | GateActive

  datatype Regs = Regs(phase: Phase, maxAdc: Signed16, peakSampNum: Word32, peakVal: bool)

  /** The concurrent output: the maximum above the baseline, in 17 bits. */
  function Peak(r: Regs, baseline: Signed16): Signed17 { r.maxAdc - baseline }

  function Next(r: Regs, trig: bool, gate: bool, adc: Signed16, sampNum: Word32): Regs {
    var newMax := r.phase.GateActive? && adc > r.maxAdc;
    if trig then Regs(Idle, FLOOR, 0, r.peakVal)
    else Regs(
      phase := if gate then GateActive else Idle,
      maxAdc := if newMax then adc else r.maxAdc,
      peakSampNum := if newMax then sampNum else r.peakSampNum,
      peakVal := r.phase.GateActive? && (!gate || r.peakVal))
  }

  class Entity {
    var phase: Phase
    var maxAdc: Signed16
    var peakSampNum: Word32
    var peakVal: bool

    ghost function View(): Regs
      reads this
    {
      Regs(phase, maxAdc, peakSampNum, peakVal)
    }

    /** Nothing here has a power-up value; the first trigger sets the phase and the maximum. */
    constructor () {
    }

    method Clock(trig: bool, gate: bool, adc: Signed16, sampNum: Word32)
      modifies this
      ensures View() == Next(old(View()), trig, gate, adc, sampNum)
    {
      if trig {
        phase, maxAdc, peakSampNum := Idle, FLOOR, 0;
      } else {
        match phase {
          case Idle =>
            peakVal := false;
            if gate {
              phase := GateActive;
            }
          case GateActive =>
            if !gate {
              peakVal := true;
              phase := Idle;
            }
            if adc > maxAdc {
              maxAdc, peakSampNum := adc, sampNum;
            }
        }
      }
    }
  }
}
