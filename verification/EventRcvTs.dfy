/** The timestamp receiver: shifts bit codes into a word and latches it, with an offset since the latch. */
module EventRcvTs {
  import opened Words
  import opened EventCodes

  datatype Regs = Regs(
    pos: BitIndex, secondsTmp: Bits32, secondsReg: Bits32, offset: Word32,
    clear: bool, clearReg: bool, stampSeconds: Bits32, stampOffset: Word32)

  function Zero(): Bits32 { seq(32, _ => false) }

  function Next(r: Regs, reset: bool, event: Word8): Regs {
    var latch := event == LATCH;
    Regs(
      pos := if latch then 31 else if IsBit(event) then (r.pos + 31) % 32 else r.pos,
      secondsTmp := if reset || r.clearReg then Zero()
                    else if IsBit(event) then r.secondsTmp[r.pos := event == BIT_ONE]
                    else r.secondsTmp,
      secondsReg := if latch then r.secondsTmp else r.secondsReg,
      offset := if latch then 0 else Wrap32(r.offset + 1),
      clear := latch,
      clearReg := r.clear,
      stampSeconds := if reset then Zero() else r.secondsReg,
      stampOffset := if reset then 0 else r.offset)
  }

  class Entity {
    var pos: BitIndex
    var secondsTmp: Bits32
    var secondsReg: Bits32
    var offset: Word32
    var clear: bool
    var clearReg: bool
    var stampSeconds: Bits32
    var stampOffset: Word32

    ghost function View(): Regs
      reads this
    {
      Regs(pos, secondsTmp, secondsReg, offset, clear, clearReg, stampSeconds, stampOffset)
    }

    constructor ()
      ensures pos == 31 && secondsTmp == secondsReg == Zero() && offset == 0 && !clear && !clearReg
    {
      pos, secondsTmp, secondsReg, offset := 31, Zero(), Zero(), 0;
      clear, clearReg, stampSeconds, stampOffset := false, false, Zero(), 0;
    }

    /** The position, seconds, latch, offset, clear and timestamp processes on one rising edge. */
    method Clock(reset: bool, event: Word8)
      modifies this
      ensures View() == Next(old(View()), reset, event)
    {
      if reset {
        stampSeconds, stampOffset := Zero(), 0;
      } else {
        stampSeconds, stampOffset := secondsReg, offset;
      }
      if event == LATCH {
        secondsReg, offset := secondsTmp, 0;
      } else {
        offset := Wrap32(offset + 1);
      }
      if reset || clearReg {
        secondsTmp := Zero();
      } else if event == BIT_ZERO {
        secondsTmp := secondsTmp[pos := false];
      } else if event == BIT_ONE {
        secondsTmp := secondsTmp[pos := true];
      }
      if event == LATCH {
        pos := 31;
      } else if event == BIT_ZERO || event == BIT_ONE {
        pos := (pos + 31) % 32;
      }
      clearReg := clear;
      clear := event == LATCH;
    }
  }

  // ----- timestamps over whole runs -----

  datatype Input = Input(reset: bool, event: Word8)

  function Run(r: Regs, ins: seq<Input>, k: nat): Regs
    requires k <= |ins|
  {
    if k == 0 then r else Next(Run(r, ins, k - 1), ins[k - 1].reset, ins[k - 1].event)
  }

  /** Index of the newest latch event among the first k, or -1. */
  function LastLatch(ins: seq<Input>, k: nat): (j: int)
    requires k <= |ins|
    ensures -1 <= j < k
    ensures j >= 0 ==> ins[j].event == LATCH
    ensures forall i :: j < i < k ==> ins[i].event != LATCH
  {
    if k == 0 then -1 else if ins[k - 1].event == LATCH then k - 1 else LastLatch(ins, k - 1)
  }

  lemma NextPair(r: Regs, i: Input)
    ensures var q := Next(r, i.reset, i.event);
            && q.secondsReg == (if i.event == LATCH then r.secondsTmp else r.secondsReg)
            && q.offset == (if i.event == LATCH then 0 else Wrap32(r.offset + 1))
            && (!i.reset ==> q.stampSeconds == r.secondsReg && q.stampOffset == r.offset)
  {
  }

  /** Clocks since the newest latch event after k clocks, or since the start offset when there was none. */
  function Age(r: Regs, ins: seq<Input>, k: nat): int
    requires k <= |ins|
  {
    var j := LastLatch(ins, k);
    if j < 0 then r.offset + k else k - 1 - j
  }

  lemma AgeStep(r: Regs, ins: seq<Input>, k: nat)
    requires k < |ins|
    ensures Age(r, ins, k + 1) == if ins[k].event == LATCH then 0 else Age(r, ins, k) + 1
  {
  }

  lemma {:induction false} LatchedOffset(r: Regs, ins: seq<Input>, k: nat)
    requires k <= |ins|
    ensures Run(r, ins, k).offset == Wrap32(Age(r, ins, k))
  {
    assert Wrap32(0) == 0 && Wrap32(r.offset) == r.offset;
    hide Wrap32, Next;
    if k > 0 {
      LatchedOffset(r, ins, k - 1);
      NextPair(Run(r, ins, k - 1), ins[k - 1]);
      AgeStep(r, ins, k - 1);
      WrapAdd(Age(r, ins, k - 1), 1);
      hide Age;
    }
  }

  /** The latched word is the one shifted in when the newest latch event came; the offset is its age. */
  lemma {:induction false} LatchedPair(r: Regs, ins: seq<Input>, k: nat)
    requires k <= |ins|
    ensures var q, j := Run(r, ins, k), LastLatch(ins, k);
            && q.secondsReg == (if j < 0 then r.secondsReg else Run(r, ins, j).secondsTmp)
            && q.offset == Wrap32(if j < 0 then r.offset + k else k - 1 - j)
  {
    hide Wrap32, Next;
    LatchedOffset(r, ins, k);
    if k > 0 {
      LatchedPair(r, ins, k - 1);
      NextPair(Run(r, ins, k - 1), ins[k - 1]);
    }
  }

  /**
   * Every timestamp is a consistent pair. Outside reset its seconds are the word that had been shifted
   * in when the newest latch event the output register has seen arrived, and its offset counts the
   * clocks since that same event, modulo 2^32.
   */
  lemma {:induction false} TimestampPairs(r: Regs, ins: seq<Input>, k: nat)
    requires 0 < k <= |ins| && !ins[k - 1].reset
    ensures var q, j := Run(r, ins, k), LastLatch(ins, k - 1);
            && (j >= 0 ==> q.stampSeconds == Run(r, ins, j).secondsTmp && q.stampOffset == Wrap32(k - 2 - j))
            && (j < 0 ==> q.stampSeconds == r.secondsReg && q.stampOffset == Wrap32(r.offset + k - 1))
  {
    hide Next;
    LatchedPair(r, ins, k - 1);
    NextPair(Run(r, ins, k - 1), ins[k - 1]);
  }

  /** Reset clears the word being shifted in and the output, and leaves the pointer, the latch and the offset alone. */
  lemma ResetClears(r: Regs, event: Word8)
    ensures var q, unreset := Next(r, true, event), Next(r, false, event);
            && (forall b :: 0 <= b < 32 ==> !q.secondsTmp[b] && !q.stampSeconds[b]) && q.stampOffset == 0
            && q.pos == unreset.pos && q.secondsReg == unreset.secondsReg && q.offset == unreset.offset
            && q.clear == unreset.clear && q.clearReg == unreset.clearReg
  {
  }

  /**
   * The shift register is cleared two clocks after a latch event. A bit on the first clock after it is
   * wiped by that and one on the second is never stored, though both move the pointer; the next one counts.
   */
  lemma LateBitIsLost(r: Regs, a: Word8, b: Word8, c: Word8)
    requires IsBit(a) && IsBit(b) && IsBit(c)
    ensures var latched := Next(Next(r, false, 0x7D), false, a);
            var cleared := Next(latched, false, b);
            && (!r.clearReg && !r.clear ==> latched.secondsTmp == r.secondsTmp[31 := a == BIT_ONE])
            && cleared.secondsTmp == seq(32, _ => false) && cleared.pos == 29
            && Next(cleared, false, c).secondsTmp == seq(32, _ => false)[29 := c == BIT_ONE]
  {
  }
}
