/** The block average of the samples under the baseline gate. */
module CalcBaseline {
  import opened Words

  const ACCUM_LEN := 31

  datatype Phase = Idle | Accumulating

  datatype Regs = Regs(
    phase: Phase, count: Word6, accum: Signed16, accumLat: Signed16, accumVal: bool, startLast: bool,
    baseline: Signed16, baselineVal: bool)

  /** The sample at this edge goes into the sum. */
  predicate Sums(r: Regs, trig: bool) { !trig && r.phase.Accumulating? && r.count != ACCUM_LEN }

  function Next(r: Regs, trig: bool, start: bool, adc: Signed16): Regs {
    var idle := !trig && r.phase.Idle?;
    var ends := !trig && r.phase.Accumulating? && r.count == ACCUM_LEN;
    var begins := idle && start && !r.startLast;
    Regs(
      phase := if begins then Accumulating else if ends then Idle else r.phase,
      count := if begins || ends then 0 else if Sums(r, trig) then Wrap6(r.count + 1) else r.count,
      accum := if trig || ends then 0 else if Sums(r, trig) then WrapSigned16(r.accum + adc) else r.accum,
      accumLat := if trig then 0 else if ends then r.accum / 32 else r.accumLat,
      accumVal := if trig then r.accumVal else ends,
      startLast := if idle then start else r.startLast,
      baseline := r.accumLat,
      baselineVal := r.accumVal)
  }

  class Entity {
    var phase: Phase
    var count: Word6
    var accum: Signed16
    var accumLat: Signed16
    var accumVal: bool
    var startLast: bool
    var baseline: Signed16
    var baselineVal: bool

    ghost function View(): Regs
      reads this
    {
      Regs(phase, count, accum, accumLat, accumVal, startLast, baseline, baselineVal)
    }

    constructor ()
      ensures phase.Idle? && count == accum == accumLat == 0 && !accumVal
    {
      phase, count, accum, accumLat, accumVal := Idle, 0, 0, 0, false;
    }

    /** The output register process and the averaging process on one rising edge. */
    method Clock(trig: bool, start: bool, adc: Signed16)
      modifies this
      ensures View() == Next(old(View()), trig, start, adc)
    {
      baseline, baselineVal := accumLat, accumVal;
      if trig {
        accum, accumLat := 0, 0;
      } else {
        match phase {
          case Idle =>
            accumVal := false;
            if start && !startLast {
              count := 0;
              phase := Accumulating;
            }
            startLast := start;
          case Accumulating =>
            if count == ACCUM_LEN {
              accumLat := accum / 32;
              accum, count, accumVal := 0, 0, true;
              phase := Idle;
            } else {
              accumVal := false;
              count := Wrap6(count + 1);
              accum := WrapSigned16(accum + adc);
            }
        }
      }
    }
  }

  /** A sum begins exactly where the gate is seen to rise, and the gate is looked at only while idle and untriggered. */
  lemma BeginsIff(r: Regs, trig: bool, start: bool, adc: Signed16)
    ensures r.phase.Idle? ==> (Next(r, trig, start, adc).phase.Accumulating? <==> start && !r.startLast && !trig)
    ensures Next(r, trig, start, adc).startLast == if r.phase.Idle? && !trig then start else r.startLast
  {
  }
}
