/** The baseline gate followed by the integral gate, opened at a given sample number. */
module GenGates {
  import opened Words

  const BASELINE_LEN := 32
  const INTEGRAL_LEN := 60

  datatype Phase = Idle | Triggered | BaselineActive | IntegralActive

  datatype Regs = Regs(
    phase: Phase, baselineCnt: Word8, integralCnt: Word8, baselineGate: bool, integralGate: bool)

  predicate Opens(r: Regs, sampleNum: Word32, gateStart: Word32) {
    r.phase.Triggered? && sampleNum >= gateStart
  }

  function Next(r: Regs, trig: bool, sampleNum: Word32, gateStart: Word32): Regs {
    var start, opens := r.phase.Idle? && trig, Opens(r, sampleNum, gateStart);
    Regs(
      phase := match r.phase
               case Idle => if trig then Triggered else Idle
               case Triggered => if opens then BaselineActive else Triggered
               case BaselineActive => if r.baselineCnt == 0 then IntegralActive else BaselineActive
               case IntegralActive => if r.integralCnt == 0 then Idle else IntegralActive,
      baselineCnt := if start then 0 else if opens then BASELINE_LEN
                     else if r.phase.BaselineActive? && r.baselineCnt > 0 then r.baselineCnt - 1
                     else r.baselineCnt,
      integralCnt := if start then 0 else if opens then INTEGRAL_LEN
                     else if r.phase.IntegralActive? && r.integralCnt > 0 then r.integralCnt - 1
                     else r.integralCnt,
      baselineGate := if r.phase.BaselineActive? then r.baselineCnt > 0
                      else opens || (r.baselineGate && !start),
      integralGate := if r.phase.IntegralActive? then r.integralCnt > 0
                      else r.integralGate && !start)
  }

  class Entity {
    var phase: Phase
    var baselineCnt: Word8
    var integralCnt: Word8
    var baselineGate: bool
    var integralGate: bool

    ghost function View(): Regs
      reads this
    {
      Regs(phase, baselineCnt, integralCnt, baselineGate, integralGate)
    }

    constructor ()
      ensures phase.Idle?
    {
      phase := Idle;
    }

    method Clock(trig: bool, sampleNum: Word32, gateStart: Word32)
      modifies this
      ensures View() == Next(old(View()), trig, sampleNum, gateStart)
    {
      match phase {
        case Idle =>
          if trig {
            baselineGate, integralGate := false, false;
            baselineCnt, integralCnt := 0, 0;
            phase := Triggered;
          }
        case Triggered =>
          if sampleNum >= gateStart {
            baselineGate := true;
            baselineCnt, integralCnt := BASELINE_LEN, INTEGRAL_LEN;
            phase := BaselineActive;
          }
        case BaselineActive =>
          if baselineCnt == 0 {
            baselineGate := false;
            phase := IntegralActive;
          } else {
            baselineGate := true;
            baselineCnt := baselineCnt - 1;
          }
        case IntegralActive =>
          if integralCnt == 0 {
            integralGate := false;
            phase := Idle;
          } else {
            integralGate := true;
            integralCnt := integralCnt - 1;
          }
      }
    }
  }

  // ----- where the gates stand e clocks after the opening edge -----

  /** Last clock on which the integral gate machine is still active. */
  const CLOSE := BASELINE_LEN + INTEGRAL_LEN + 2

  /** The gates after edge e, where edge 0 is the one that opens the baseline gate. */
  predicate Open(r: Regs, e: int) {
    && r.baselineGate == (0 <= e <= BASELINE_LEN)
    && r.integralGate == (BASELINE_LEN + 2 <= e < CLOSE)
    && r.phase == (if e <= BASELINE_LEN then BaselineActive else if e < CLOSE then IntegralActive else Idle)
    && (e <= BASELINE_LEN ==> r.baselineCnt == BASELINE_LEN - e && r.integralCnt == INTEGRAL_LEN)
    && (BASELINE_LEN < e < CLOSE ==> r.integralCnt == CLOSE - 1 - e)
  }

  predicate Waiting(r: Regs) { r.phase.Triggered? && !r.baselineGate && !r.integralGate }

  lemma StepOpen(r: Regs, e: nat, sampleNum: Word32, gateStart: Word32)
    requires Open(r, e)
    ensures Open(Next(r, false, sampleNum, gateStart), e + 1)
  {
  }

  /** A waiting gate opens on exactly the first edge that finds the sample number at or past the gate start. */
  lemma OpensIff(r: Regs, trig: bool, sampleNum: Word32, gateStart: Word32)
    requires Waiting(r)
    ensures if gateStart <= sampleNum then Open(Next(r, trig, sampleNum, gateStart), 0)
            else Waiting(Next(r, trig, sampleNum, gateStart))
  {
  }
}
