/** The fixed beam-detect window; the fall of its gate fires the accumulator. */
module BeamDetectWindow {
  import opened Words

  const START_DELAY := 1
  const WINDOW_LEN := 2000

  datatype Phase = Idle | Triggered | PulseHi

  datatype Regs = Regs(phase: Phase, dlyCnt: Word16, hiCnt: Word16, pulse: bool)

  function Next(r: Regs, trig: bool): Regs {
    var start := r.phase.Idle? && trig;
    Regs(
      phase := match r.phase
               case Idle => if trig then Triggered else Idle
               case Triggered => if r.dlyCnt == 0 then PulseHi else Triggered
               case PulseHi => if r.hiCnt == 0 then Idle else PulseHi,
      dlyCnt := if start then START_DELAY
                else if r.phase.Triggered? && r.dlyCnt > 0 then r.dlyCnt - 1 else r.dlyCnt,
      hiCnt := if start then WINDOW_LEN
               else if r.phase.PulseHi? && r.hiCnt > 0 then r.hiCnt - 1 else r.hiCnt,
      pulse := if r.phase.PulseHi? then r.hiCnt > 0 else r.phase.Triggered? && r.pulse)
  }

  class Entity {
    var phase: Phase
    var dlyCnt: Word16
    var hiCnt: Word16
    var pulse: bool

    ghost function View(): Regs
      reads this
    {
      Regs(phase, dlyCnt, hiCnt, pulse)
    }

    constructor ()
      ensures View() == Regs(Idle, 0, 0, false)
    {
      phase, dlyCnt, hiCnt, pulse := Idle, 0, 0, false;
    }

    method Clock(trig: bool)
      modifies this
      ensures View() == Next(old(View()), trig)
    {
      match phase {
        case Idle =>
          pulse := false;
          if trig {
            dlyCnt, hiCnt := START_DELAY, WINDOW_LEN;
            phase := Triggered;
          }
        case Triggered =>
          if dlyCnt == 0 {
            phase := PulseHi;
          } else {
            dlyCnt := dlyCnt - 1;
          }
        case PulseHi =>
          if hiCnt == 0 {
            pulse := false;
            phase := Idle;
          } else {
            pulse := true;
            hiCnt := hiCnt - 1;
          }
      }
    }
  }

  // ----- one window -----

  /** The window n clocks after a trigger that found it idle, whatever triggers come meanwhile. */
  function Run(r: Regs, trigs: seq<bool>, n: nat): Regs
    requires n <= |trigs|
  {
    if n == 0 then Next(r, true) else Next(Run(r, trigs, n - 1), trigs[n - 1])
  }

  /** The gate is up for exactly 2000 clocks, from the third after the trigger on, and no trigger in it counts. */
  lemma {:induction false} OneWindow(r: Regs, trigs: seq<bool>, n: nat)
    requires r.phase.Idle? && !r.pulse && n <= |trigs| && n <= 2003
    ensures var q := Run(r, trigs, n);
            && (q.pulse <==> 3 <= n < 2003) && (q.phase.Idle? <==> n == 2003)
            && (q.phase.Triggered? <==> n < 2) && (n < 2 ==> q.dlyCnt == 1 - n)
            && q.hiCnt == if n <= 2 then 2000 else if n < 2003 then 2002 - n else 0
  {
    if n > 0 {
      OneWindow(r, trigs, n - 1);
    }
  }
}
