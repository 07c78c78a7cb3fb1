/** The timestamp serialiser: a 1 Hz code, 32 bit codes from bit 31 down, and a latch code. */
module TsGen {
  import opened Words
  import opened EventCodes

  /** Value of the delay counter on which a pause ends. */
  const PAUSE_END := 10

  datatype Phase = Idle | Send1Hz | PrePause | Active | Pause | CheckIfLast | Update

  datatype Regs = Regs(phase: Phase, idx: BitIndex, dlyCnt: Word8, dout: Word8, valid: bool, startPrev: bool)

  function NextPhase(r: Regs, start: bool): Phase {
    match r.phase
    case Idle => if start then Send1Hz else Idle
    case Send1Hz => PrePause
    case PrePause => if r.dlyCnt == PAUSE_END then Active else PrePause
    case Active => Pause
    case Pause => if r.dlyCnt == PAUSE_END then CheckIfLast else Pause
    case CheckIfLast => if r.idx == 0 then Update else Active
    case Update => Idle
  }

  function Next(r: Regs, rst: bool, start: bool, din: Bits32): Regs {
    if rst then r.(phase := Idle, startPrev := start, dout := 0, valid := false)
    else Regs(
      phase := NextPhase(r, start),
      idx := if r.phase.Idle? && start then 31
             else if r.phase.CheckIfLast? && r.idx != 0 then r.idx - 1
             else r.idx,
      dlyCnt := match r.phase
                case Idle => 0
                case PrePause => if r.dlyCnt == PAUSE_END then 0 else Wrap8(r.dlyCnt + 1)
                case Pause => if r.dlyCnt == PAUSE_END then 0 else Wrap8(r.dlyCnt + 1)
                case _ => r.dlyCnt,
      dout := match r.phase
              case Send1Hz => ONE_HZ
              case Active => BitCode(din[r.idx])
              case Update => LATCH
              case _ => r.dout,
      valid := r.phase.Send1Hz? || r.phase.Active? || r.phase.Update?,
      startPrev := r.startPrev)
  }

  class Entity {
    var phase: Phase
    var idx: BitIndex
    var dlyCnt: Word8
    var dout: Word8
    var valid: bool
    var startPrev: bool

    ghost function View(): Regs
      reads this
    {
      Regs(phase, idx, dlyCnt, dout, valid, startPrev)
    }

    constructor ()
      ensures phase.Idle?
    {
      phase := Idle;
    }

    method Clock(rst: bool, start: bool, din: Bits32)
      modifies this
      ensures View() == Next(old(View()), rst, start, din)
    {
      if rst {
        phase, dout, valid, startPrev := Idle, 0, false, start;
        return;
      }
      match phase {
        case Idle =>
          valid, dlyCnt := false, 0;
          if start {
            phase, idx := Send1Hz, 31;
          }
        case Send1Hz =>
          dout, valid := ONE_HZ, true;
          phase := PrePause;
        case PrePause =>
          valid := false;
          if dlyCnt == PAUSE_END {
            dlyCnt, phase := 0, Active;
          } else {
            dlyCnt := Wrap8(dlyCnt + 1);
          }
        case Active =>
          dout := if !din[idx] then BIT_ZERO else BIT_ONE;
          valid := true;
          phase := Pause;
        case Pause =>
          valid := false;
          if dlyCnt == PAUSE_END {
            dlyCnt, phase := 0, CheckIfLast;
          } else {
            dlyCnt := Wrap8(dlyCnt + 1);
          }
        case CheckIfLast =>
          valid := false;
          if idx == 0 {
            phase := Update;
          } else {
            idx := idx - 1;
            phase := Active;
          }
        case Update =>
          dout, valid := LATCH, true;
          phase := Idle;
      }
    }
  }

  // ----- frames -----

  /** The serialiser has just left idle. */
  predicate Starting(r: Regs) { r.phase.Send1Hz? && r.idx == 31 && r.dlyCnt == 0 && !r.valid }

  /** Between leaving idle and returning to it. */
  predicate InFrame(r: Regs) {
    && !r.phase.Idle?
    && r.dlyCnt <= PAUSE_END
    && (r.phase.Send1Hz? || r.phase.PrePause? ==> r.idx == 31)
    && (r.phase.Update? ==> r.idx == 0)
    && (!r.phase.PrePause? && !r.phase.Pause? ==> r.dlyCnt == 0)
  }

  /** Clocks until the serialiser is idle again: 13 per bit, 12 before the first, 2 after the last. */
  function Remaining(r: Regs): int {
    match r.phase
    case Idle => 0
    case Update => 1
    case CheckIfLast => 13 * r.idx + 2
    case Pause => 13 * r.idx + 13 - r.dlyCnt
    case Active => 13 * r.idx + 14
    case PrePause => 428 - r.dlyCnt
    case Send1Hz => 429
  }

  /** The bit codes already sent. */
  function BitsSent(r: Regs): int {
    match r.phase
    case Active => 31 - r.idx
    case Pause => 32 - r.idx
    case CheckIfLast => 32 - r.idx
    case Update => 32
    case Idle => 32
    case _ => 0
  }

  function BitCodes(din: Bits32, n: nat): (codes: seq<Word8>)
    requires n <= 32
    ensures |codes| == n
  {
    seq(n, j requires 0 <= j < n => BitCode(din[31 - j]))
  }

  /** The state after k clocks with reset low and `din` held. */
  function Run(r: Regs, starts: seq<bool>, din: Bits32, k: nat): Regs
    requires k <= |starts|
  {
    if k == 0 then r else Next(Run(r, starts, din, k - 1), false, starts[k - 1], din)
  }

  /** The codes marked valid during the first k clocks. */
  function Emitted(r: Regs, starts: seq<bool>, din: Bits32, k: nat): seq<Word8>
    requires k <= |starts|
  {
    if k == 0 then []
    else
      var q := Run(r, starts, din, k);
      Emitted(r, starts, din, k - 1) + if q.valid then [q.dout] else []
  }

  lemma StepFrame(r: Regs, start: bool, din: Bits32)
    requires InFrame(r)
    ensures var q := Next(r, false, start, din);
            && Remaining(q) == Remaining(r) - 1
            && (!r.phase.Update? ==> InFrame(q))
            && BitsSent(q) == BitsSent(r) + (if r.phase.Active? then 1 else 0)
  {
    hide BitCode;
  }

  /** What has been sent when the serialiser stands at r. */
  function SentBy(r: Regs, din: Bits32): seq<Word8>
    requires InFrame(r)
  {
    if r.phase.Send1Hz? then [] else [ONE_HZ] + BitCodes(din, BitsSent(r))
  }

  lemma StepSent(r: Regs, start: bool, din: Bits32)
    requires InFrame(r) && !r.phase.Update?
    ensures var q := Next(r, false, start, din);
            InFrame(q) && SentBy(q, din) == SentBy(r, din) + if q.valid then [q.dout] else []
  {
    StepFrame(r, start, din);
    if r.phase.Active? {
      assert BitCodes(din, BitsSent(r) + 1) == BitCodes(din, BitsSent(r)) + [BitCode(din[r.idx])];
    }
  }

  lemma {:induction false} FrameProgress(r: Regs, starts: seq<bool>, din: Bits32, k: nat)
    requires Starting(r) && k <= |starts| && k <= 428
    ensures var q := Run(r, starts, din, k);
            InFrame(q) && Remaining(q) == 429 - k && Emitted(r, starts, din, k) == SentBy(q, din)
  {
    if k > 0 {
      FrameProgress(r, starts, din, k - 1);
      var q := Run(r, starts, din, k - 1);
      StepFrame(q, starts[k - 1], din);
      StepSent(q, starts[k - 1], din);
      hide InFrame, Remaining, SentBy, Next;
    }
  }

  /**
   * A frame takes 429 clocks from leaving idle, whatever the start input does meanwhile, and sends
   * exactly 34 codes: the 1 Hz code, the bits from 31 down to 0, and the latch code on its last clock.
   */
  lemma {:induction false} FrameCodes(r: Regs, starts: seq<bool>, din: Bits32)
    requires Starting(r) && |starts| >= 429
    ensures forall k :: 0 <= k < 429 ==> !Run(r, starts, din, k).phase.Idle?
    ensures Run(r, starts, din, 429).phase.Idle?
    ensures var codes := Emitted(r, starts, din, 429);
            && |codes| == 34 && codes[0] == 0x20 && codes[33] == 0x7D
            && forall j :: 1 <= j <= 32 ==> codes[j] == if din[32 - j] then 0x71 else 0x70
  {
    forall k | 0 <= k < 429
      ensures !Run(r, starts, din, k).phase.Idle?
    {
      FrameProgress(r, starts, din, k);
    }
    FrameProgress(r, starts, din, 428);
    assert Emitted(r, starts, din, 429) == [ONE_HZ] + BitCodes(din, 32) + [LATCH] by {
      LastClock(Run(r, starts, din, 428));
    }
    LastClock(Run(r, starts, din, 428));
  }

  lemma LastClock(r: Regs)
    requires InFrame(r) && Remaining(r) == 1
    ensures r.phase.Update?
  {
  }

  /** A frame starts exactly on a start input that finds the serialiser idle. */
  lemma FrameStartsIff(r: Regs, start: bool, din: Bits32)
    requires r.phase.Idle?
    ensures Starting(Next(r, false, start, din)) <==> start
    ensures !start ==> Next(r, false, start, din).phase.Idle?
  {
  }

  /** Reset ends a frame wherever it stands and clears the output. */
  lemma ResetEnds(r: Regs, start: bool, din: Bits32)
    ensures var q := Next(r, true, start, din); q.phase.Idle? && !q.valid && q.dout == 0 && q.startPrev == start
  {
  }

  /** Without a new code the output holds the last one. */
  lemma OutputHolds(r: Regs, start: bool, din: Bits32)
    ensures var q := Next(r, false, start, din); (!q.valid ==> q.dout == r.dout) && q.startPrev == r.startPrev
  {
  }
}
