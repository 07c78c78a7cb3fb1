/** The event transmitter: the code multiplexer and the once-a-second epoch counter. */
module EvgTop {
  import opened Words
  import opened EventCodes

  // ----- transmit multiplexer -----

  datatype Tx = Tx(data: Word16, charIsK: Word8)

  function NextTx(t: Tx, rst: bool, code: Word8, valid: bool): Tx {
    if !rst && valid then Tx(code, 0) else Tx(IDLE_WORD, 1)
  }

  // ----- epoch counter -----

  const HALF_SECOND := 50000000
  const EPOCH_START := 1761037205

  datatype Epoch = Epoch(count: Word32, oneHz: bool, time: Word32)

  function NextEpoch(e: Epoch, rst: bool): Epoch {
    if rst then Epoch(0, false, EPOCH_START)
    else if e.count == HALF_SECOND - 1 then
      Epoch(0, !e.oneHz, if e.oneHz then e.time else Wrap32(e.time + 1))
    else Epoch(Wrap32(e.count + 1), e.oneHz, e.time)
  }

  class Entity {
    var data: Word16
    var charIsK: Word8
    var count: Word32
    var oneHz: bool
    var time: Word32

    ghost function ViewTx(): Tx
      reads this
    {
      Tx(data, charIsK)
    }

    ghost function ViewEpoch(): Epoch
      reads this
    {
      Epoch(count, oneHz, time)
    }

    constructor ()
      ensures count == 0 && !oneHz
    {
      count, oneHz := 0, false;
    }

    /** The multiplexer process, on the link clock. */
    method ClockTx(rst: bool, code: Word8, valid: bool)
      modifies this`data, this`charIsK
      ensures ViewTx() == NextTx(old(ViewTx()), rst, code, valid)
    {
      if rst {
        data, charIsK := IDLE_WORD, 1;
      } else {
        if valid {
          data, charIsK := code, 0;
        } else {
          data, charIsK := IDLE_WORD, 1;
        }
      }
    }

    /** The epoch process, on the system clock. */
    method ClockEpoch(rst: bool)
      modifies this`count, this`oneHz, this`time
      ensures ViewEpoch() == NextEpoch(old(ViewEpoch()), rst)
    {
      if rst {
        count, oneHz, time := 0, false, EPOCH_START;
      } else {
        if count == HALF_SECOND - 1 {
          if !oneHz {
            time := Wrap32(time + 1);
          }
          count, oneHz := 0, !oneHz;
        } else {
          count := Wrap32(count + 1);
        }
      }
    }
  }

  /** The counter k clocks after e, with reset low. */
  function RunEpoch(e: Epoch, k: nat): Epoch {
    if k == 0 then e else NextEpoch(RunEpoch(e, k - 1), false)
  }

  /**
   * From the clock on which the 1 Hz signal rises, and the epoch time with it, the epoch time keeps its
   * value for the rest of the second: a frame started by that rise reads one and the same word.
   */
  lemma {:induction false} EpochSteadyForASecond(e: Epoch, k: nat)
    requires e.count == 0 && e.oneHz && k < 100_000_000
    ensures RunEpoch(e, k).time == e.time
    ensures RunEpoch(e, k) == if k < 50_000_000 then Epoch(k, true, e.time) else Epoch(k - 50_000_000, false, e.time)
  {
    if k > 0 {
      EpochSteadyForASecond(e, k - 1);
    }
  }

  /** And then it rises again, with the next second. */
  lemma {:induction false} EpochNextSecond(e: Epoch)
    requires e.count == 0 && e.oneHz
    ensures RunEpoch(e, 100_000_000) == Epoch(0, true, Wrap32(e.time + 1))
  {
    EpochSteadyForASecond(e, 99_999_999);
  }

  lemma {:induction false} EpochFirstHalf(e: Epoch, k: nat)
    requires e.count == 0 && !e.oneHz && k < 50_000_000
    ensures RunEpoch(e, k) == Epoch(k, false, e.time)
  {
    if k > 0 {
      EpochFirstHalf(e, k - 1);
    }
  }

  /** From reset the signal is low for half a second with the time at its start value, and then rises with the next. */
  lemma {:induction false} EpochFromReset(e: Epoch, k: nat)
    requires k <= 50_000_000
    ensures RunEpoch(NextEpoch(e, true), k) ==
            if k < 50_000_000 then Epoch(k, false, 1761037205) else Epoch(0, true, 1761037206)
  {
    var start := NextEpoch(e, true);
    EpochFirstHalf(start, if k < 50_000_000 then k else k - 1);
  }

  /** The word sent: a valid code as a data word, and the comma word, marked as a control word, otherwise and in reset. */
  lemma TxWord(t: Tx, rst: bool, code: Word8, valid: bool)
    ensures var q := NextTx(t, rst, code, valid);
            if valid && !rst then q.data == code && q.charIsK == 0 else q.data == 0x50BC && q.charIsK == 1
  {
  }
}
