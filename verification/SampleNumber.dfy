/** The sample counter, restarted by every trigger. */
module SampleNumber {
  import opened Words

  datatype Regs = Regs(sampleNum: Word32, prevTrig: bool)

  function Next(r: Regs, trig: bool): Regs {
    Regs(if trig then 0 else Wrap32(r.sampleNum + 1), trig)
  }

  class Entity {
    var sampleNum: Word32
    var prevTrig: bool

    constructor ()
      ensures View() == Regs(0, false)
    {
      sampleNum, prevTrig := 0, false;
    }

    ghost function View(): Regs
      reads this
    {
      Regs(sampleNum, prevTrig)
    }

    method Clock(trig: bool)
      modifies this
      ensures View() == Next(old(View()), trig)
    {
      prevTrig := trig;
      if trig {
        sampleNum := 0;
      } else {
        sampleNum := Wrap32(sampleNum + 1);
      }
    }
  }

  function Run(r: Regs, trigs: seq<bool>, n: nat): Regs
    requires n <= |trigs|
  {
    if n == 0 then r else Next(Run(r, trigs, n - 1), trigs[n - 1])
  }

  /** The counter reads the clocks since the newest trigger, at j, modulo 2^32; the other register is the last input. */
  lemma {:induction false} CountsSinceTrigger(r: Regs, trigs: seq<bool>, j: nat, n: nat)
    requires j < n <= |trigs| && trigs[j] && forall k :: j < k < n ==> !trigs[k]
    ensures Run(r, trigs, n) == Regs((n - 1 - j) % 0x1_0000_0000, trigs[n - 1])
  {
    if n > j + 1 {
      CountsSinceTrigger(r, trigs, j, n - 1);
      WrapAdd(n - 2 - j, 1);
    }
  }
}
