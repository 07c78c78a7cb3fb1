/** The width of a pulse at half its height, searched on a delayed copy of the samples. */
module CalcFwhm {
  import opened Words

  datatype Phase = Idle | StartFwhm | FoundPulse

  datatype Regs = Regs(phase: Phase, raw: Signed17, above: Signed17, fwhm: Word16, fwhmVal: bool)

  /** Half the peak: its upper 16 bits, which rounds towards minus infinity. */
  function Level(peak: Signed17): Signed16 { peak / 2 }

  function Next(r: Regs, trig: bool, start: bool, baseline: Signed16, peak: Signed17, adc: Signed16): Regs {
    var level := Level(peak);
    var found := r.phase.StartFwhm? && r.above >= level;
    var wider := r.phase.FoundPulse? && r.above > level;
    var ends := r.phase.FoundPulse? && r.above <= level;
    Regs(
      phase := if trig then r.phase
               else if r.phase.Idle? && start then StartFwhm
               else if found then FoundPulse
               else if ends then Idle
               else r.phase,
      raw := adc - baseline,
      above := r.raw,
      fwhm := if trig || (r.phase.Idle? && start) then 0
              else if found || wider then Wrap16(r.fwhm + 1)
              else r.fwhm,
      fwhmVal := !trig && (ends || (r.fwhmVal && !r.phase.Idle?)))
  }

  class Entity {
    var phase: Phase
    var raw: Signed17
    var above: Signed17
    var fwhm: Word16
    var fwhmVal: bool

    ghost function View(): Regs
      reads this
    {
      Regs(phase, raw, above, fwhm, fwhmVal)
    }

    constructor ()
      ensures phase.Idle?
    {
      phase := Idle;
    }

    /** The two-stage subtraction and the width search on one rising edge. */
    method Clock(trig: bool, start: bool, baseline: Signed16, peak: Signed17, adc: Signed16)
      modifies this
      ensures View() == Next(old(View()), trig, start, baseline, peak, adc)
    {
      var wasAbove, level := above, Level(peak);
      above := raw;
      raw := adc - baseline;
      if trig {
        fwhm, fwhmVal := 0, false;
      } else {
        match phase {
          case Idle =>
            fwhmVal := false;
            if start {
              fwhm := 0;
              phase := StartFwhm;
            }
          case StartFwhm =>
            if wasAbove >= level {
              fwhm := Wrap16(fwhm + 1);
              phase := FoundPulse;
            }
          case FoundPulse =>
            if wasAbove <= level {
              phase := Idle;
              fwhmVal := true;
            } else {
              fwhm := Wrap16(fwhm + 1);
            }
        }
      }
    }
  }
}
