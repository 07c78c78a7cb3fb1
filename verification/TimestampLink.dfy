/**
 * The timestamp link, clock by clock: serialiser, transmit multiplexer, and receiver. The link itself
 * is taken as the identity on the low byte.
 */
module TimestampLink {
  import opened Words
  import opened EventCodes
  import TsGen
  import EvgTop
  import Rcv = EventRcvTs

  datatype State = State(gen: TsGen.Regs, tx: EvgTop.Tx, rcv: Rcv.Regs)

  datatype Input = Input(start: bool, din: Bits32)

  /** The event code on the wire. */
  function Wire(l: State): Word8 { LowByte(l.tx.data) }

  /** One clock with reset low; each part reads what the part before it held. */
  function Next(l: State, i: Input): State {
    State(TsGen.Next(l.gen, false, i.start, i.din),
          EvgTop.NextTx(l.tx, false, l.gen.dout, l.gen.valid),
          Rcv.Next(l.rcv, false, Wire(l)))
  }

  function Run(l: State, ins: seq<Input>, k: nat): State
    requires k <= |ins|
  {
    if k == 0 then l else Next(Run(l, ins, k - 1), ins[k - 1])
  }

  /** Where the b-th bit code of a frame goes when the frame finds the bit pointer at p. */
  function Slot(p: int, b: int): int { if p >= b then p - b else p - b + 32 }

  /** The bit codes the receiver has taken in: two clocks behind the serialiser. */
  function Received(g: TsGen.Regs): int {
    match g.phase
    case Active => 31 - g.idx
    case Pause => if g.dlyCnt >= 2 then 32 - g.idx else 31 - g.idx
    case CheckIfLast => 32 - g.idx
    case Update => 32
    case Idle => 32
    case _ => 0
  }

  predicate Holds(word: Bits32, din: Bits32, p: BitIndex, n: int) {
    forall b :: 0 <= b < n && b < 32 ==> word[Slot(p, b)] == din[31 - b]
  }

  /** What is valid at the serialiser's output and what is on the wire, one clock behind. */
  predicate CodesInFlight(l: State, din: Bits32) {
    var g := l.gen;
    && g.valid == ((g.phase.PrePause? || g.phase.Pause?) && g.dlyCnt == 0)
    && (g.valid ==> g.dout == if g.phase.PrePause? then ONE_HZ else BitCode(din[g.idx]))
    && Wire(l) == (if g.phase.Pause? && g.dlyCnt == 1 then BitCode(din[g.idx])
                   else if g.phase.PrePause? && g.dlyCnt == 1 then ONE_HZ
                   else COMMA)
  }

  /** Inside a frame whose first code finds the bit pointer at p. */
  predicate MidFrame(l: State, din: Bits32, p: BitIndex) {
    var g, r := l.gen, l.rcv;
    && TsGen.InFrame(g) && !g.phase.Send1Hz?
    && CodesInFlight(l, din)
    && 0 <= Received(g) <= 32
    && r.pos == Slot(p, Received(g) % 32)
    && (!(g.phase.PrePause? && g.dlyCnt == 0) ==> !r.clear)
    && (!(g.phase.PrePause? && g.dlyCnt <= 1) ==> !r.clearReg)
    && Holds(r.secondsTmp, din, p, Received(g))
  }

  lemma EnterFrame(l: State, i: Input)
    requires TsGen.Starting(l.gen)
    ensures MidFrame(Next(l, i), i.din, Next(l, i).rcv.pos)
  {
  }

  lemma HoldsNone(word: Bits32, din: Bits32, p: BitIndex)
    ensures Holds(word, din, p, 0)
  {
  }

  lemma HoldsOneMore(word: Bits32, din: Bits32, p: BitIndex, n: nat)
    requires n < 32 && Holds(word, din, p, n)
    ensures Holds(word[Slot(p, n) := din[31 - n]], din, p, n + 1)
  {
  }

  lemma SlotAdvances(p: BitIndex, n: nat)
    requires n < 32
    ensures 0 <= Slot(p, n) < 32 && (Slot(p, n) + 31) % 32 == Slot(p, (n + 1) % 32)
  {
  }

  /** The receiver takes in an event when n bits of the frame are already in place. */
  lemma TakesIn(r: Rcv.Regs, event: Word8, din: Bits32, p: BitIndex, n: nat)
    requires n <= 32 && r.pos == Slot(p, n % 32) && Holds(r.secondsTmp, din, p, n) && event != LATCH
    requires IsBit(event) ==> n < 32 && event == BitCode(din[31 - n]) && !r.clearReg
    requires !IsBit(event) && n > 0 ==> !r.clearReg
    ensures var q, n' := Rcv.Next(r, false, event), if IsBit(event) then n + 1 else n;
            q.pos == Slot(p, n' % 32) && Holds(q.secondsTmp, din, p, n')
  {
    hide Holds, Slot;
    if IsBit(event) {
      SlotAdvances(p, n);
      HoldsOneMore(r.secondsTmp, din, p, n);
    } else if n == 0 {
      HoldsNone(Rcv.Next(r, false, event).secondsTmp, din, p);
    }
  }

  /** What the wire carries at this clock of a frame. */
  lemma WireInFrame(l: State, i: Input, p: BitIndex)
    requires MidFrame(l, i.din, p) && !l.gen.phase.Update?
    ensures var n := Received(l.gen);
            && Received(Next(l, i).gen) == (if IsBit(Wire(l)) then n + 1 else n)
            && Wire(l) != LATCH
            && (IsBit(Wire(l)) ==> n < 32 && Wire(l) == BitCode(i.din[31 - n]) && !l.rcv.clearReg)
            && (!IsBit(Wire(l)) && n > 0 ==> !l.rcv.clearReg)
  {
    hide Holds, Slot, EvgTop.NextTx, Rcv.Next;
    if IsBit(Wire(l)) {
      assert Received(l.gen) == 31 - l.gen.idx;
    }
  }

  lemma StepReceiver(l: State, i: Input, p: BitIndex)
    requires MidFrame(l, i.din, p) && !l.gen.phase.Update?
    ensures var q := Next(l, i);
            && q.rcv.pos == Slot(p, Received(q.gen) % 32)
            && Holds(q.rcv.secondsTmp, i.din, p, Received(q.gen))
  {
    WireInFrame(l, i, p);
    hide Holds, Slot, Received, CodesInFlight, TsGen.InFrame, TsGen.Next, Rcv.Next, Wire;
    TakesIn(l.rcv, Wire(l), i.din, p, Received(l.gen));
  }

  lemma StepMidFrame(l: State, i: Input, p: BitIndex)
    requires MidFrame(l, i.din, p) && !l.gen.phase.Update?
    ensures MidFrame(Next(l, i), i.din, p)
  {
    hide Holds, Slot;
    StepReceiver(l, i, p);
    WireInFrame(l, i, p);
    TsGen.StepFrame(l.gen, i.start, i.din);
  }

  /** Two and three clocks after the last clock of a frame its latch code has reached the receiver. */
  lemma LeaveFrame(l: State, p: BitIndex, i: Input, j: Input, k: Input)
    requires MidFrame(l, i.din, p) && l.gen.phase.Update?
    ensures var q := Next(Next(Next(l, i), j), k);
            q.rcv.pos == 31 && Holds(q.rcv.secondsReg, i.din, p, 32)
  {
  }

  lemma {:induction false} RunMidFrame(l: State, ins: seq<Input>, k: nat)
    requires TsGen.Starting(l.gen) && 1 <= k <= |ins| && k <= 428
    requires forall j :: 0 <= j < |ins| ==> ins[j].din == ins[0].din
    ensures var q := Run(l, ins, k);
            MidFrame(q, ins[0].din, Run(l, ins, 1).rcv.pos) && TsGen.Remaining(q.gen) == 429 - k
  {
    hide MidFrame, Next, TsGen.Starting, TsGen.Remaining;
    if k == 1 {
      EnterFrame(l, ins[0]);
      FirstClock(l, ins[0]);
      assert Run(l, ins, 1) == Next(l, ins[0]);
    } else {
      RunMidFrame(l, ins, k - 1);
      NotLast(Run(l, ins, k - 1), ins[0].din, Run(l, ins, 1).rcv.pos, ins[k - 1]);
      StepMidFrame(Run(l, ins, k - 1), ins[k - 1], Run(l, ins, 1).rcv.pos);
    }
  }

  lemma FirstClock(l: State, i: Input)
    requires TsGen.Starting(l.gen)
    ensures TsGen.Remaining(Next(l, i).gen) == 428
  {
  }

  lemma NotLast(l: State, din: Bits32, p: BitIndex, i: Input)
    requires MidFrame(l, din, p) && TsGen.Remaining(l.gen) > 1
    ensures !l.gen.phase.Update?
    ensures TsGen.Remaining(Next(l, i).gen) == TsGen.Remaining(l.gen) - 1
  {
    TsGen.StepFrame(l.gen, i.start, i.din);
  }

  /**
   * A frame from any receiver and wire state: two clocks after the serialiser is idle again, 431 in
   * all, the latched word holds the sent bits in order, starting at the bit the pointer stood at when
   * the frame began, and the pointer is back at 31.
   */
  lemma {:induction false} FrameDecodesFrom(l: State, ins: seq<Input>)
    requires TsGen.Starting(l.gen) && |ins| >= 431
    requires forall j :: 0 <= j < |ins| ==> ins[j].din == ins[0].din
    ensures var p, q := Run(l, ins, 1).rcv.pos, Run(l, ins, 431);
            q.rcv.pos == 31 && Holds(q.rcv.secondsReg, ins[0].din, p, 32)
  {
    hide Next, MidFrame, Holds;
    RunMidFrame(l, ins, 428);
    LastIsUpdate(Run(l, ins, 428), ins[0].din, Run(l, ins, 1).rcv.pos);
    LeaveFrame(Run(l, ins, 428), Run(l, ins, 1).rcv.pos, ins[428], ins[429], ins[430]);
    assert Run(l, ins, 431) == Next(Run(l, ins, 430), ins[430]);
    assert Run(l, ins, 430) == Next(Run(l, ins, 429), ins[429]);
  }

  lemma LastIsUpdate(l: State, din: Bits32, p: BitIndex)
    requires MidFrame(l, din, p) && TsGen.Remaining(l.gen) == 1
    ensures l.gen.phase.Update?
  {
  }

  lemma HoldsAtTop(word: Bits32, din: Bits32)
    requires Holds(word, din, 31, 32)
    ensures word == din
  {
    forall i | 0 <= i < 32
      ensures word[i] == din[i]
    {
      assert word[Slot(31, 31 - i)] == din[31 - (31 - i)];
    }
  }

  /** With the pointer at 31 the round trip is exact, for every word. */
  lemma {:induction false} RoundTrip(l: State, ins: seq<Input>)
    requires TsGen.Starting(l.gen) && |ins| >= 431 && Run(l, ins, 1).rcv.pos == 31
    requires forall j :: 0 <= j < |ins| ==> ins[j].din == ins[0].din
    ensures Run(l, ins, 431).rcv.secondsReg == ins[0].din
  {
    FrameDecodesFrom(l, ins);
    HoldsAtTop(Run(l, ins, 431).rcv.secondsReg, ins[0].din);
  }

  /** With the pointer anywhere else some word comes out wrong: the one that has only its top bit set. */
  lemma {:induction false} WrongPointerCorrupts(l: State, ins: seq<Input>)
    requires TsGen.Starting(l.gen) && |ins| >= 431 && Run(l, ins, 1).rcv.pos != 31
    requires forall j :: 0 <= j < |ins| ==> ins[j].din == ins[0].din
    requires ins[0].din == seq(32, b => b == 31)
    ensures Run(l, ins, 431).rcv.secondsReg != ins[0].din
  {
    hide Run;
    FrameDecodesFrom(l, ins);
    assert Slot(Run(l, ins, 1).rcv.pos, 0) != 31;
  }

  // ----- whole runs: after one latch code every frame decodes -----

  /** Between frames, with a latch code under way to the receiver or already taken. */
  predicate Synced(l: State) {
    && (l.gen.phase.Idle? || TsGen.Starting(l.gen))
    && (if l.gen.valid then l.gen.phase.Idle? && l.gen.dout == LATCH
        else Wire(l) == LATCH || (Wire(l) == COMMA && l.rcv.pos == 31))
  }

  lemma StepSynced(l: State, i: Input)
    requires Synced(l)
    ensures var q := Next(l, i);
            if l.gen.phase.Idle? then Synced(q) else MidFrame(q, i.din, 31)
  {
    if !l.gen.phase.Idle? {
      EnterFrame(l, i);
    }
  }

  lemma EndsSynced(l: State, i: Input, p: BitIndex)
    requires MidFrame(l, i.din, p) && l.gen.phase.Update?
    ensures Synced(Next(l, i))
  {
  }

  /** The word is held from the first code of a frame to its last clock. */
  predicate HeldOverFrames(l: State, ins: seq<Input>) {
    forall k :: 0 < k < |ins| && !Run(l, ins, k).gen.phase.Idle? && !Run(l, ins, k).gen.phase.Send1Hz? ==>
      ins[k].din == ins[k - 1].din
  }

  lemma {:induction false} RunSynced(l: State, ins: seq<Input>, b: nat, k: nat)
    requires b <= k <= |ins| && Synced(Run(l, ins, b)) && HeldOverFrames(l, ins)
    ensures Synced(Run(l, ins, k)) || (k > b && MidFrame(Run(l, ins, k), ins[k - 1].din, 31))
  {
    hide Synced, MidFrame, Next;
    if k > b {
      RunSynced(l, ins, b, k - 1);
      var q := Run(l, ins, k - 1);
      if Synced(q) {
        StepSynced(q, ins[k - 1]);
      } else if q.gen.phase.Update? {
        EndsSynced(q, ins[k - 1], 31);
      } else {
        NotBetween(q, ins[k - 2].din, 31);
        StepMidFrame(q, ins[k - 1], 31);
      }
    }
  }

  lemma NotBetween(l: State, din: Bits32, p: BitIndex)
    requires MidFrame(l, din, p)
    ensures !l.gen.phase.Idle? && !l.gen.phase.Send1Hz?
  {
  }

  lemma SyncedIsBetween(l: State)
    requires Synced(l)
    ensures !l.gen.phase.Update?
  {
  }

  /**
   * Self-synchronisation: once a latch code is under way or taken, at clock b, whatever the receiver
   * held before, every later frame of the run decodes exactly, three clocks after the serialiser's last
   * step, and no clear ever erases one of its bits.
   */
  lemma {:induction false} EveryFrameDecodes(l: State, ins: seq<Input>, b: nat, k: nat)
    requires b <= k && k + 3 <= |ins| && Synced(Run(l, ins, b)) && HeldOverFrames(l, ins)
    requires Run(l, ins, k).gen.phase.Update?
    ensures k > b && Run(l, ins, k + 3).rcv.secondsReg == ins[k - 1].din
  {
    hide Holds, Next, Synced, MidFrame;
    RunSynced(l, ins, b, k);
    var q := Run(l, ins, k);
    if Synced(q) {
      SyncedIsBetween(q);
    }
    NotBetween(q, ins[k - 1].din, 31);
    LeaveFrame(q, 31, ins[k], ins[k + 1], ins[k + 2]);
    assert Run(l, ins, k + 3) == Next(Run(l, ins, k + 2), ins[k + 2]);
    assert Run(l, ins, k + 2) == Next(Run(l, ins, k + 1), ins[k + 1]);
    HoldsAtTop(Run(l, ins, k + 3).rcv.secondsReg, ins[k].din);
  }

  // ----- from the transmitter's reset -----

  /** One clock with the transmitter held in reset; the receiver may be in any state and is not reset. */
  function ResetNext(l: State, i: Input): State {
    State(TsGen.Next(l.gen, true, i.start, i.din),
          EvgTop.NextTx(l.tx, true, l.gen.dout, l.gen.valid),
          Rcv.Next(l.rcv, false, Wire(l)))
  }

  /** Nothing sent and nothing on the wire; the bit pointer may stand anywhere. */
  predicate Quiet(l: State) {
    (l.gen.phase.Idle? || TsGen.Starting(l.gen)) && !l.gen.valid && Wire(l) == COMMA
  }

  /** One clock of reset is enough, from any state; with the bit pointer at its power-up value the link is in step. */
  lemma ResetMakesQuiet(l: State, i: Input)
    ensures Quiet(ResetNext(l, i))
    ensures l.rcv.pos == 31 && !IsBit(Wire(l)) ==> Synced(ResetNext(l, i))
  {
  }

  lemma StepQuiet(l: State, i: Input)
    requires Quiet(l)
    ensures Quiet(Next(l, i)) || MidFrame(Next(l, i), i.din, Next(l, i).rcv.pos)
  {
    if !l.gen.phase.Idle? {
      EnterFrame(l, i);
    }
  }

  /** Until the first frame ends the link is quiet or inside a frame that found the bit pointer at p. */
  lemma {:induction false} RunQuiet(l: State, ins: seq<Input>, k: nat) returns (p: BitIndex)
    requires Quiet(l) && k <= |ins| && HeldOverFrames(l, ins)
    requires forall m :: 0 <= m < k ==> !Run(l, ins, m).gen.phase.Update?
    ensures Quiet(Run(l, ins, k)) || (k > 0 && MidFrame(Run(l, ins, k), ins[k - 1].din, p))
  {
    hide Quiet, MidFrame, Next;
    p := 31;
    if k > 0 {
      p := RunQuiet(l, ins, k - 1);
      var q := Run(l, ins, k - 1);
      if Quiet(q) {
        StepQuiet(q, ins[k - 1]);
        p := Next(q, ins[k - 1]).rcv.pos;
      } else {
        NotBetween(q, ins[k - 2].din, p);
        StepMidFrame(q, ins[k - 1], p);
      }
    }
  }

  /**
   * From the transmitter's reset and any receiver state: the first frame, ending at clock j, brings the
   * link in step, and every frame after it decodes exactly.
   */
  lemma {:induction false} DecodesAfterReset(l: State, i: Input, ins: seq<Input>, j: nat, k: nat)
    requires HeldOverFrames(ResetNext(l, i), ins) && j < k && k + 3 <= |ins|
    requires forall m :: 0 <= m < j ==> !Run(ResetNext(l, i), ins, m).gen.phase.Update?
    requires Run(ResetNext(l, i), ins, j).gen.phase.Update? && Run(ResetNext(l, i), ins, k).gen.phase.Update?
    ensures Run(ResetNext(l, i), ins, k + 3).rcv.secondsReg == ins[k - 1].din
  {
    var r := ResetNext(l, i);
    ResetMakesQuiet(l, i);
    var p := RunQuiet(r, ins, j);
    QuietIsBetween(Run(r, ins, j));
    hide Quiet, MidFrame, Next, Synced, ResetNext;
    NotBetween(Run(r, ins, j), ins[j - 1].din, p);
    EndsSynced(Run(r, ins, j), ins[j], p);
    EveryFrameDecodes(r, ins, j + 1, k);
  }

  lemma QuietIsBetween(l: State)
    ensures Quiet(l) ==> !l.gen.phase.Update?
  {
  }
}
