/** The detect window driving the accumulator: one update for every window that ends. */
module WindowedUpdates {
  import opened Words
  import Window = BeamDetectWindow
  import Accumulator

  datatype State = State(win: Window.Regs, acc: Accumulator.State)

  datatype Input = Input(trig: bool, accumLen: Word13, qMin: Word32, sample: Word32)

  function AccInput(s: State, i: Input): Accumulator.Input {
    Accumulator.Input(false, i.accumLen, s.win.pulse, i.qMin, i.sample)
  }

  /** One clock with the accumulator's reset low; the accumulator sees the gate before the edge. */
  function Next(s: State, i: Input): State {
    State(Window.Next(s.win, i.trig), Accumulator.Next(s.acc, AccInput(s, i)))
  }

  /** The state after the first k clocks of a run. */
  function Run(s: State, ins: seq<Input>, k: nat): State
    requires k <= |ins|
  {
    if k == 0 then s else Next(Run(s, ins, k - 1), ins[k - 1])
  }

  /** The window ends on this clock. */
  predicate Completes(s: State) { s.win.phase.PulseHi? && s.win.hiCnt == 0 }

  /** The accumulator starts an update on this clock. */
  predicate Accepts(s: State) { s.acc.regs.phase.Idle? && s.acc.regs.trig }

  /** The fall of the gate that the accumulator has yet to register. */
  predicate FallPending(s: State) { s.acc.regs.prevWindow && !s.win.pulse }

  /** Clocks spent in the current window, counting from the trigger; 0 when idle. */
  function Progress(w: Window.Regs): int {
    match w.phase
    case Idle => 0
    case Triggered => Window.START_DELAY + 1 - w.dlyCnt
    case PulseHi => Window.START_DELAY + 2 + Window.WINDOW_LEN - w.hiCnt
  }

  const LAST_CLOCK := Window.START_DELAY + 2 + Window.WINDOW_LEN

  predicate WindowOk(w: Window.Regs) {
    match w.phase
    case Idle => !w.pulse
    case Triggered => w.dlyCnt <= Window.START_DELAY && w.hiCnt == Window.WINDOW_LEN && !w.pulse
    case PulseHi => w.hiCnt <= Window.WINDOW_LEN && w.pulse == (w.hiCnt < Window.WINDOW_LEN)
  }

  /** Clocks since the gate fell while an update is pending or under way. */
  function Stage(s: State): int {
    match s.acc.regs.phase
    case CalcAccum => 2
    case Wait1 => 3
    case UpdateDpram => 4
    case UpdatePtrs => 5
    case Idle => if s.acc.regs.trig then 1 else 0
  }

  predicate Busy(s: State) { !s.acc.regs.phase.Idle? || s.acc.regs.trig || FallPending(s) }

  /** While an update is pending or under way the next window has run no longer than the update. */
  predicate Inv(s: State) {
    && WindowOk(s.win)
    && (Busy(s) ==> Progress(s.win) <= Stage(s))
    && (FallPending(s) ==> s.acc.regs.phase.Idle? && !s.acc.regs.trig)
    && (s.acc.regs.trig ==> s.acc.regs.phase.Idle? && !s.acc.regs.prevWindow)
  }

  lemma StepInv(s: State, i: Input)
    requires Inv(s)
    ensures Inv(Next(s, i))
  {
  }

  lemma {:induction false} RunInv(s: State, ins: seq<Input>, k: nat)
    requires Inv(s) && k <= |ins|
    ensures Inv(Run(s, ins, k))
  {
    if k > 0 {
      RunInv(s, ins, k - 1);
      StepInv(Run(s, ins, k - 1), ins[k - 1]);
    }
  }

  lemma TwoClocksLater(s: State, i: Input, j: Input)
    requires Inv(s)
    ensures Accepts(Next(Next(s, i), j)) <==> Completes(s)
  {
    StepInv(s, i);
    StepInv(Next(s, i), j);
  }

  /**
   * Under any trigger train an update starts exactly two clocks after each clock on which a window
   * ends, and at no other time: none is lost, none is doubled.
   */
  lemma UpdateIffWindowEnded(s: State, ins: seq<Input>, k: nat)
    requires Inv(s) && k + 2 <= |ins|
    ensures Accepts(Run(s, ins, k + 2)) <==> Completes(Run(s, ins, k))
  {
    RunInv(s, ins, k);
    TwoClocksLater(Run(s, ins, k), ins[k], ins[k + 1]);
    hide Next, Inv, Accepts, Completes;
    assert Run(s, ins, k + 2) == Next(Run(s, ins, k + 1), ins[k + 1]);
  }

  lemma ProgressStep(w: Window.Regs, trig: bool)
    requires WindowOk(w)
    ensures Progress(Window.Next(w, trig)) <= Progress(w) + 1
    ensures w.phase.PulseHi? && w.hiCnt == 0 ==> Progress(Window.Next(w, trig)) == 0
  {
  }

  lemma {:induction false} ProgressGrowsSlowly(s: State, ins: seq<Input>, j: nat, k: nat)
    requires Inv(s) && j < k <= |ins| && Completes(Run(s, ins, j))
    ensures Progress(Run(s, ins, k).win) < k - j
  {
    hide Progress, Inv, WindowOk, Window.Next, Accumulator.Next;
    var before := Run(s, ins, k - 1);
    if k > j + 1 {
      ProgressGrowsSlowly(s, ins, j, k - 1);
    }
    RunInv(s, ins, k - 1);
    InvWindow(before);
    ProgressStep(before.win, ins[k - 1].trig);
    assert Run(s, ins, k).win == Window.Next(before.win, ins[k - 1].trig);
  }

  lemma InvWindow(s: State)
    requires Inv(s)
    ensures WindowOk(s.win)
  {
  }

  /** Two windows end at least 2004 clocks apart, whatever the triggers. */
  lemma WindowEndsFarApart(s: State, ins: seq<Input>, j: nat, k: nat)
    requires Inv(s) && j < k <= |ins| && Completes(Run(s, ins, j)) && Completes(Run(s, ins, k))
    ensures k - j >= LAST_CLOCK + 1 == 2004
  {
    ProgressGrowsSlowly(s, ins, j, k);
  }

  // ----- spaced triggers -----

  /** Least distance between triggers for which an update has finished before the next trigger. */
  const SPACING := 2010

  /** Clocks since the last trigger, one clock later. */
  function GapStep(g: nat, trig: bool): nat { if trig then 1 else Min(g + 1, SPACING) }

  /** With spaced triggers the clocks since the last one fix where window and accumulator stand. */
  predicate OnSchedule(s: State, g: nat) {
    var r := s.acc.regs;
    && 1 <= g <= SPACING
    && WindowOk(s.win)
    && (if g <= LAST_CLOCK then Progress(s.win) == g else s.win.phase.Idle?)
    && r.prevWindow == (5 <= g <= LAST_CLOCK + 1)
    && r.trig == (g == LAST_CLOCK + 2)
    && r.phase == (if g == LAST_CLOCK + 3 then Accumulator.CalcAccum
                   else if g == LAST_CLOCK + 4 then Accumulator.Wait1
                   else if g == LAST_CLOCK + 5 then Accumulator.UpdateDpram
                   else if g == LAST_CLOCK + 6 then Accumulator.UpdatePtrs
                   else Accumulator.Idle)
  }

  lemma StepOnSchedule(s: State, g: nat, i: Input)
    requires OnSchedule(s, g) && (i.trig ==> g >= SPACING)
    ensures OnSchedule(Next(s, i), GapStep(g, i.trig))
  {
  }

  /** Being on schedule is one way to meet the invariant that holds under any triggers. */
  lemma ScheduleIsInv(s: State, g: nat)
    requires OnSchedule(s, g)
    ensures Inv(s)
  {
  }

  // ----- from power-up -----

  /** The window machine in its first state; everything else is open. */
  predicate PowerUp(s: State) { s.win.phase.Idle? && |s.acc.ram| == Accumulator.DEPTH }

  /** One clock without a trigger while the accumulator, which alone has a reset, is held in it. */
  function HoldNext(s: State, i: Input): State {
    State(Window.Next(s.win, false), Accumulator.Next(s.acc, AccInput(s, i).(rst := true)))
  }

  /** The state after the first n clocks in reset. */
  function Hold(s: State, ins: seq<Input>, n: nat): State
    requires n <= |ins|
  {
    if n == 0 then s else HoldNext(Hold(s, ins, n - 1), ins[n - 1])
  }

  /** Three clocks are enough for the gate, the edge detector and its output to settle. */
  predicate Held(s: State, L: Word13, n: nat) {
    && PowerUp(s)
    && (n >= 1 ==> !s.win.pulse && s.acc.regs.phase.Idle? && s.acc.regs.accum == 0 && Accumulator.Counts(s.acc.regs, L, 0))
    && (n >= 2 ==> !s.acc.regs.prevWindow)
    && (n >= 3 ==> !s.acc.regs.trig)
  }

  lemma StepHeld(s: State, i: Input, n: nat)
    requires Held(s, i.accumLen, n) && 1 <= i.accumLen < Accumulator.DEPTH
    ensures Held(HoldNext(s, i), i.accumLen, n + 1)
  {
  }

  lemma HeldOnSchedule(s: State, L: Word13, n: nat)
    requires Held(s, L, n) && n >= 3
    ensures OnSchedule(s, SPACING) && Accumulator.Tracks(s.acc, L, [])
  {
  }

  /** From power-up, three clocks in reset without a trigger bring window and accumulator on schedule. */
  lemma {:induction false} ResetOnSchedule(s: State, hold: seq<Input>, L: Word13)
    requires PowerUp(s) && 1 <= L < Accumulator.DEPTH && |hold| >= 3
    requires forall k :: 0 <= k < |hold| ==> hold[k].accumLen == L
    ensures var r := Hold(s, hold, |hold|); OnSchedule(r, SPACING) && Inv(r) && Accumulator.Tracks(r.acc, L, [])
  {
    hide Held, OnSchedule, Inv, Accumulator.Tracks;
    HoldHeld(s, hold, L, |hold|);
    HeldOnSchedule(Hold(s, hold, |hold|), L, |hold|);
    ScheduleIsInv(Hold(s, hold, |hold|), SPACING);
  }

  lemma {:induction false} HoldHeld(s: State, hold: seq<Input>, L: Word13, n: nat)
    requires PowerUp(s) && 1 <= L < Accumulator.DEPTH && n <= |hold|
    requires forall k :: 0 <= k < |hold| ==> hold[k].accumLen == L
    ensures Held(Hold(s, hold, n), L, n)
  {
    hide HoldNext;
    if n > 0 {
      HoldHeld(s, hold, L, n - 1);
      hide Held;
      StepHeld(Hold(s, hold, n - 1), hold[n - 1], n - 1);
    }
  }

  /** From power-up and reset, under any triggers: one update per window, two clocks after it ends, and far apart. */
  lemma {:induction false} UpdatesFromReset(s: State, hold: seq<Input>, L: Word13, ins: seq<Input>, j: nat, k: nat)
    requires PowerUp(s) && 1 <= L < Accumulator.DEPTH && |hold| >= 3 && j < k && k + 2 <= |ins|
    requires forall i :: 0 <= i < |hold| ==> hold[i].accumLen == L
    ensures var r := Hold(s, hold, |hold|);
            && (Accepts(Run(r, ins, k + 2)) <==> Completes(Run(r, ins, k)))
            && (Completes(Run(r, ins, j)) && Completes(Run(r, ins, k)) ==> k - j >= 2004)
  {
    hide Inv, OnSchedule, Accumulator.Tracks, Accepts, Completes, Run, Hold, PowerUp;
    ResetOnSchedule(s, hold, L);
    var r := Hold(s, hold, |hold|);
    UpdateIffWindowEnded(r, ins, k);
    if Completes(Run(r, ins, j)) && Completes(Run(r, ins, k)) {
      WindowEndsFarApart(r, ins, j, k);
    }
  }
}
