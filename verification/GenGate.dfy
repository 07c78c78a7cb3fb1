/** A single gate of programmable start and width. */
module GenGate {
  import opened Words

  datatype Phase = Idle | Triggered | PulseHi

  datatype Regs = Regs(phase: Phase, hiCnt: Word32, pulse: bool)

  function Next(r: Regs, trig: bool, sampleNum: Word32, gateStart: Word32, width: Word32): Regs {
    var opens := r.phase.Triggered? && sampleNum >= gateStart;
    Regs(
      phase := match r.phase
               case Idle => if trig then Triggered else Idle
               case Triggered => if opens then PulseHi else Triggered
               case PulseHi => if r.hiCnt == 0 then Idle else PulseHi,
      hiCnt := if r.phase.Idle? && trig then width
               else if r.phase.PulseHi? && r.hiCnt > 0 then r.hiCnt - 1
               else r.hiCnt,
      pulse := if r.phase.PulseHi? then r.hiCnt > 0 else r.phase.Triggered? && (opens || r.pulse))
  }

  class Entity {
    var phase: Phase
    var hiCnt: Word32
    var pulse: bool

    ghost function View(): Regs
      reads this
    {
      Regs(phase, hiCnt, pulse)
    }

    constructor ()
      ensures View() == Regs(Idle, 0, false)
    {
      phase, hiCnt, pulse := Idle, 0, false;
    }

    method Clock(trig: bool, sampleNum: Word32, gateStart: Word32, width: Word32)
      modifies this
      ensures View() == Next(old(View()), trig, sampleNum, gateStart, width)
    {
      match phase {
        case Idle =>
          pulse := false;
          if trig {
            hiCnt := width;
            phase := Triggered;
          }
        case Triggered =>
          if sampleNum >= gateStart {
            pulse := true;
            phase := PulseHi;
          }
        case PulseHi =>
          if hiCnt == 0 {
            pulse := false;
            phase := Idle;
          } else {
            pulse := true;
            hiCnt := hiCnt - 1;
          }
      }
    }
  }

  // ----- how long the gate is up -----

  /** One edge's inputs. */
  datatype Input = Input(trig: bool, sampleNum: Word32, gateStart: Word32, width: Word32)

  function Run(r: Regs, ins: seq<Input>, n: nat): Regs
    requires n <= |ins|
  {
    if n == 0 then r
    else
      var i := ins[n - 1];
      Next(Run(r, ins, n - 1), i.trig, i.sampleNum, i.gateStart, i.width)
  }

  /** A trigger takes the width in; the gate then opens on the first edge at or past the gate start. */
  lemma LoadsAndOpens(r: Regs, sampleNum: Word32, gateStart: Word32, width: Word32, trig: bool)
    ensures r.phase.Idle? ==> Next(r, true, sampleNum, gateStart, width) == Regs(Triggered, width, false)
    ensures r.phase.Triggered? && !r.pulse ==>
              Next(r, trig, sampleNum, gateStart, width) ==
              if gateStart <= sampleNum then Regs(PulseHi, r.hiCnt, true) else r
  {
  }

  /** Once open, a gate of any width w is up for exactly w + 1 edges, whatever its inputs are meanwhile. */
  lemma {:induction false} UpForWidth(w: Word32, ins: seq<Input>, n: nat)
    requires n <= |ins| && n <= w + 1
    ensures Run(Regs(PulseHi, w, true), ins, n) == if n <= w then Regs(PulseHi, w - n, true) else Regs(Idle, 0, false)
  {
    if n > 0 {
      UpForWidth(w, ins, n - 1);
    }
  }
}
