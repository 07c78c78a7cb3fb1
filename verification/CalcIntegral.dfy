/** The clipped, baseline-subtracted sum of the samples under the integral gate. */
module CalcIntegral {
  import opened Words

  const ACCUM_LEN := 59

  datatype Phase = Idle | Accumulating

  datatype Regs = Regs(
    phase: Phase, count: Word6, accum: Signed32, accumLat: Signed32, accumVal: bool, startLast: bool,
    raw: Signed17, clipped: Signed17)

  predicate Sums(r: Regs, trig: bool) { !trig && r.phase.Accumulating? && r.count != ACCUM_LEN }

  function Next(r: Regs, trig: bool, start: bool, baseline: Signed16, adc: Signed16): Regs {
    var idle := !trig && r.phase.Idle?;
    var ends := !trig && r.phase.Accumulating? && r.count == ACCUM_LEN;
    var begins := idle && start && !r.startLast;
    Regs(
      phase := if begins then Accumulating else if ends then Idle else r.phase,
      count := if begins || ends then 0 else if Sums(r, trig) then Wrap6(r.count + 1) else r.count,
      accum := if ends then 0 else if Sums(r, trig) then WrapSigned32(r.accum + r.clipped) else r.accum,
      accumLat := if trig then 0 else if ends then r.accum else r.accumLat,
      accumVal := if trig then r.accumVal else ends,
      startLast := if idle then start else r.startLast,
      raw := adc - baseline,
      clipped := Max(0, r.raw))
  }

  class Entity {
    var phase: Phase
    var count: Word6
    var accum: Signed32
    var accumLat: Signed32
    var accumVal: bool
    var startLast: bool
    var raw: Signed17
    var clipped: Signed17

    ghost function View(): Regs
      reads this
    {
      Regs(phase, count, accum, accumLat, accumVal, startLast, raw, clipped)
    }

    constructor ()
      ensures phase.Idle? && count == accum == accumLat == 0 && !accumVal
    {
      phase, count, accum, accumLat, accumVal := Idle, 0, 0, 0, false;
    }

    /** The subtract-and-clip pipeline and the summing process on one rising edge. */
    method Clock(trig: bool, start: bool, baseline: Signed16, adc: Signed16)
      modifies this
      ensures View() == Next(old(View()), trig, start, baseline, adc)
    {
      var wasClipped := clipped;
      clipped := if raw < 0 then 0 else raw;
      raw := adc - baseline;
      if trig {
        accumLat := 0;
      } else {
        match phase {
          case Idle =>
            accumVal := false;
            if start && !startLast {
              count := 0;
              phase := Accumulating;
            }
            startLast := start;
          case Accumulating =>
            if count == ACCUM_LEN {
              accumLat := accum;
              accum, count, accumVal := 0, 0, true;
              phase := Idle;
            } else {
              accumVal := false;
              count := Wrap6(count + 1);
              accum := WrapSigned32(accum + wasClipped);
            }
        }
      }
    }
  }

  /** A sum begins exactly where the gate is seen to rise, and the gate is looked at only while idle and untriggered. */
  lemma BeginsIff(r: Regs, trig: bool, start: bool, baseline: Signed16, adc: Signed16)
    ensures r.phase.Idle? ==> (Next(r, trig, start, baseline, adc).phase.Accumulating? <==> start && !r.startLast && !trig)
    ensures Next(r, trig, start, baseline, adc).startLast == if r.phase.Idle? && !trig then start else r.startLast
  {
  }
}
