/** The start-up interlock against the accumulator: the fault may clear only over a full window. */
module StartupCoupling {
  import opened Words
  import Accumulator
  import Startup = StartupDelay
  import Updates = WindowedUpdates

  datatype State = State(start: Startup.Regs, charge: Updates.State)

  datatype Input = Input(trig: bool, key: bool, qMin: Word32, sample: Word32)

  /** The window length the accumulator sees: the low 13 bits of the length register. */
  function Window(len: Word32): Word13 { Wrap13(len) }

  function ChargeInput(i: Input, len: Word32): Updates.Input {
    Updates.Input(i.trig, Window(len), i.qMin, i.sample)
  }

  /** One clock with reset low; the countdown loads all of the length register. */
  function Next(s: State, i: Input, len: Word32): State {
    State(Startup.Next(s.start, false, i.trig, i.key, len), Updates.Next(s.charge, ChargeInput(i, len)))
  }

  /** The state after the first k clocks of a run. */
  function Run(s: State, ins: seq<Input>, k: nat, len: Word32): State
    requires k <= |ins|
  {
    if k == 0 then s else Next(Run(s, ins, k - 1, len), ins[k - 1], len)
  }

  function Take(u: seq<int>, s: State, i: Input, len: Word32): seq<int> {
    Accumulator.Take(u, s.charge.acc.regs, Updates.AccInput(s.charge, ChargeInput(i, len)))
  }

  /** The samples the accumulator takes during the first k clocks. */
  function Taken(s: State, ins: seq<Input>, k: nat, len: Word32): seq<int>
    requires k <= |ins|
  {
    if k == 0 then [] else Take(Taken(s, ins, k - 1, len), Run(s, ins, k - 1, len), ins[k - 1], len)
  }

  function Triggers(ins: seq<Input>, k: nat): nat
    requires k <= |ins|
  {
    if k == 0 then 0 else Triggers(ins, k - 1) + if ins[k - 1].trig then 1 else 0
  }

  /** Clocks since the last trigger after k clocks, when it was g clocks ago at the start. */
  function Gap(g: nat, ins: seq<Input>, k: nat): nat
    requires k <= |ins|
  {
    if k == 0 then g else Updates.GapStep(Gap(g, ins, k - 1), ins[k - 1].trig)
  }

  /** Every trigger of the run comes at least SPACING clocks after the one before it. */
  predicate Spaced(g: nat, ins: seq<Input>) {
    forall k :: 0 <= k < |ins| && ins[k].trig ==> Gap(g, ins, k) >= Updates.SPACING
  }

  function LastKey(keyLast: bool, ins: seq<Input>, k: nat): bool
    requires k <= |ins|
  {
    if k == 0 then keyLast else ins[k - 1].key
  }

  predicate NoKeyEdge(keyLast: bool, ins: seq<Input>) {
    forall k :: 0 <= k < |ins| && ins[k].key ==> LastKey(keyLast, ins, k)
  }

  /** The countdown t triggers after it was armed. */
  predicate CountedDown(r: Startup.Regs, t: nat, len: Word32) {
    if t <= len then r.count == len - t && r.enabled && r.fault else !r.enabled && !r.fault
  }

  lemma StepCountedDown(r: Startup.Regs, t: nat, len: Word32, trig: bool, key: bool)
    requires CountedDown(r, t, len) && !Startup.KeyEdge(r, key)
    ensures CountedDown(Startup.Next(r, false, trig, key, len), if trig then t + 1 else t, len)
  {
  }

  /** After t triggers and n samples only the newest trigger may still owe its sample. */
  predicate KeptUp(g: nat, t: nat, n: nat) {
    n >= t - 1 && (g >= Updates.LAST_CLOCK + 3 ==> n >= t)
  }

  lemma StepKeptUp(s: State, g: nat, t: nat, u: seq<int>, i: Input, len: Word32)
    requires Updates.OnSchedule(s.charge, g) && (i.trig ==> g >= Updates.SPACING) && KeptUp(g, t, |u|)
    ensures KeptUp(Updates.GapStep(g, i.trig), if i.trig then t + 1 else t, |Take(u, s, i, len)|)
  {
  }

  lemma StepTail(s: State, u: seq<int>, len: Word32, h0: seq<int>, i: Input)
    requires Accumulator.Tracks(s.charge.acc, Window(len), h0 + u)
    ensures Accumulator.Tracks(Next(s, i, len).charge.acc, Window(len), h0 + Take(u, s, i, len))
  {
    var ai := Updates.AccInput(s.charge, ChargeInput(i, len));
    Accumulator.StepTracks(s.charge.acc, ai, Window(len), h0 + u);
    hide Accumulator.Tracks, Accumulator.Next;
    assert Accumulator.Take(h0 + u, s.charge.acc.regs, ai) == h0 + Take(u, s, i, len);
  }

  /** After t triggers and the samples u since the countdown was armed over the history h0. */
  ghost predicate Coupled(s: State, g: nat, t: nat, u: seq<int>, len: Word32, h0: seq<int>) {
    && Updates.OnSchedule(s.charge, g)
    && Accumulator.Tracks(s.charge.acc, Window(len), h0 + u)
    && KeptUp(g, t, |u|)
    && CountedDown(s.start, t, len)
  }

  lemma StepCoupled(s: State, g: nat, t: nat, u: seq<int>, len: Word32, h0: seq<int>, i: Input)
    requires Coupled(s, g, t, u, len, h0)
    requires (i.trig ==> g >= Updates.SPACING) && !Startup.KeyEdge(s.start, i.key)
    ensures Coupled(Next(s, i, len), Updates.GapStep(g, i.trig), if i.trig then t + 1 else t, Take(u, s, i, len), len, h0)
    ensures Next(s, i, len).start.keyLast == i.key
  {
    hide Accumulator.Tracks, Updates.OnSchedule, KeptUp, CountedDown, Take, Updates.Next;
    Updates.StepOnSchedule(s.charge, g, ChargeInput(i, len));
    StepKeptUp(s, g, t, u, i, len);
    StepCountedDown(s.start, t, len, i.trig, i.key);
    StepTail(s, u, len, h0, i);
  }

  lemma {:induction false} RunCoupled(s: State, g: nat, ins: seq<Input>, k: nat, len: Word32, h0: seq<int>)
    requires Coupled(s, g, 0, [], len, h0) && k <= |ins|
    requires Spaced(g, ins) && NoKeyEdge(s.start.keyLast, ins)
    ensures Coupled(Run(s, ins, k, len), Gap(g, ins, k), Triggers(ins, k), Taken(s, ins, k, len), len, h0)
    ensures Run(s, ins, k, len).start.keyLast == LastKey(s.start.keyLast, ins, k)
  {
    hide Coupled, Next, Take, Updates.GapStep;
    if k > 0 {
      RunCoupled(s, g, ins, k - 1, len, h0);
      StepCoupled(Run(s, ins, k - 1, len), Gap(g, ins, k - 1), Triggers(ins, k - 1), Taken(s, ins, k - 1, len), len, h0, ins[k - 1]);
    }
  }

  /** Once L samples are summed, older history no longer matters. */
  lemma {:induction false} TailWindow(acc: Accumulator.State, L: nat, h0: seq<int>, u: seq<int>)
    requires Accumulator.Tracks(acc, L, h0 + u) && |Accumulator.Summed(acc.regs, u)| >= L >= 1
    ensures acc.regs.accum == Wrap32(Sum(LastOf(Accumulator.Summed(acc.regs, u), L)))
  {
    hide Accumulator.Ring, Accumulator.Counts, Accumulator.Stored, Sum, Wrap32;
    var summed := Accumulator.Summed(acc.regs, u);
    assert u != [];
    assert Accumulator.Summed(acc.regs, h0 + u) == h0 + summed;
    assert LastOf(h0 + summed, L) == LastOf(summed, L);
  }

  /** The output is the 32-bit sum of a full window of the samples u. */
  predicate FullWindow(acc: Accumulator.Regs, u: seq<int>, len: Word32) {
    var summed := Accumulator.Summed(acc, u);
    |summed| >= len && acc.accum == Wrap32(Sum(LastOf(summed, len % 8192)))
  }

  /**
   * From an armed countdown, with spaced triggers and no further key turn, the fault clears exactly
   * one trigger after as many as the length register says. From then on the accumulator output is the
   * 32-bit sum of a full window of samples that were all taken after the key turn. This holds for all
   * 32 bits of the register, of which the window has the low 13.
   */
  lemma FaultClearsOverFullWindow(s: State, g: nat, ins: seq<Input>, k: nat, len: Word32, h0: seq<int>)
    requires Startup.Armed(s.start, len)
    requires Updates.OnSchedule(s.charge, g) && Accumulator.Tracks(s.charge.acc, Window(len), h0)
    requires Spaced(g, ins) && NoKeyEdge(s.start.keyLast, ins) && k <= |ins|
    ensures var q := Run(s, ins, k, len);
            && (q.start.fault <==> Triggers(ins, k) <= len)
            && (!q.start.fault ==> FullWindow(q.charge.acc.regs, Taken(s, ins, k, len), len))
  {
    assert h0 + [] == h0;
    hide Updates.Next, FullWindow;
    RunCoupled(s, g, ins, k, len, h0);
    var q := Run(s, ins, k, len);
    if !q.start.fault {
      FullAfterClear(q, Gap(g, ins, k), Triggers(ins, k), Taken(s, ins, k, len), len, h0);
    }
  }

  lemma FullAfterClear(q: State, g: nat, t: nat, u: seq<int>, len: Word32, h0: seq<int>)
    requires Coupled(q, g, t, u, len, h0) && t > len
    ensures FullWindow(q.charge.acc.regs, u, len)
  {
    assert 1 <= Window(len) <= len && |Accumulator.Summed(q.charge.acc.regs, u)| >= len;
    hide Accumulator.Tracks, Window;
    TailWindow(q.charge.acc, Window(len), h0, u);
  }

  /**
   * The interlock as the operator meets it: the key is turned on the clock turn, not on a trigger that
   * a running countdown counts. Counting triggers from the next clock on, the fault stands exactly
   * through the first len of them, and then clears over a full window of samples taken since the turn.
   */
  lemma {:induction false} KeyTurnToClear(
      s: State, g: nat, turn: Input, ins: seq<Input>, k: nat, len: Word32, h0: seq<int>)
    requires turn.key && !s.start.keyLast && !(turn.trig && s.start.enabled)
    requires Updates.OnSchedule(s.charge, g) && Accumulator.Tracks(s.charge.acc, Window(len), h0)
    requires (turn.trig ==> g >= Updates.SPACING) && Spaced(Updates.GapStep(g, turn.trig), ins)
    requires NoKeyEdge(true, ins) && k <= |ins|
    ensures var armed := Next(s, turn, len);
            var q := Run(armed, ins, k, len);
            && (q.start.fault <==> Triggers(ins, k) <= len)
            && (!q.start.fault ==> FullWindow(q.charge.acc.regs, Taken(armed, ins, k, len), len))
  {
    hide Updates.OnSchedule, Updates.Next, Accumulator.Tracks, Take, Window, Run, Taken, FullWindow;
    assert h0 + [] == h0;
    Startup.KeyTurnArms(s.start, turn.trig, len);
    Updates.StepOnSchedule(s.charge, g, ChargeInput(turn, len));
    StepTail(s, [], len, h0, turn);
    FaultClearsOverFullWindow(Next(s, turn, len), Updates.GapStep(g, turn.trig), ins, k, len, h0 + Take([], s, turn, len));
  }

  // ----- from power-up -----

  /** Spaced triggers keep the charge side in step, whatever the key does. */
  lemma {:induction false} RunInStep(s: State, g: nat, ins: seq<Input>, k: nat, len: Word32, h0: seq<int>)
    requires Updates.OnSchedule(s.charge, g) && Accumulator.Tracks(s.charge.acc, Window(len), h0)
    requires Spaced(g, ins) && k <= |ins|
    ensures Updates.OnSchedule(Run(s, ins, k, len).charge, Gap(g, ins, k))
    ensures Accumulator.Tracks(Run(s, ins, k, len).charge.acc, Window(len), h0 + Taken(s, ins, k, len))
  {
    hide Updates.OnSchedule, Updates.Next, Accumulator.Tracks, Take, Window, Updates.GapStep;
    if k == 0 {
      assert h0 + [] == h0;
    } else {
      RunInStep(s, g, ins, k - 1, len, h0);
      var q := Run(s, ins, k - 1, len);
      Updates.StepOnSchedule(q.charge, Gap(g, ins, k - 1), ChargeInput(ins[k - 1], len));
      StepTail(q, Taken(s, ins, k - 1, len), len, h0, ins[k - 1]);
    }
  }

  /** The key is not seen to turn on during the first n clocks. */
  predicate KeyStill(keyLast: bool, ins: seq<Input>, n: nat)
    requires n <= |ins|
  {
    forall k :: 0 <= k < n && ins[k].key ==> LastKey(keyLast, ins, k)
  }

  /** Without a key turn the fault that reset leaves stands. */
  lemma {:induction false} FaultStands(s: State, ins: seq<Input>, k: nat, len: Word32)
    requires s.start.fault && !s.start.enabled && k <= |ins| && KeyStill(s.start.keyLast, ins, k)
    ensures Run(s, ins, k, len).start.fault && !Run(s, ins, k, len).start.enabled
    ensures Run(s, ins, k, len).start.keyLast == LastKey(s.start.keyLast, ins, k)
  {
    hide Updates.Next;
    if k > 0 {
      FaultStands(s, ins, k - 1, len);
      assert ins[k - 1].key ==> LastKey(s.start.keyLast, ins, k - 1);
    }
  }

  /**
   * The interlock from power-up: its own last clock in reset finds its registers at anything, the
   * accumulator is held in reset for at least three clocks, and then any spaced triggers and any use of
   * the key come before. For as long as the key is not turned the fault stands. At last the key is turned
   * from off on a clock that is not a trigger counted by a running countdown: the fault stands exactly
   * through the first len triggers from then on and clears over a full window of samples taken since.
   */
  lemma {:induction false} KeyTurnFromPowerUp(
      anything: Startup.Regs, trig: bool, key: bool, charge: Updates.State, hold: seq<Updates.Input>,
      before: seq<Input>, m: nat, turn: Input, ins: seq<Input>, k: nat, len: Word32)
    requires Updates.PowerUp(charge) && 1 <= Window(len) < Accumulator.DEPTH && |hold| >= 3
    requires forall i :: 0 <= i < |hold| ==> hold[i].accumLen == Window(len)
    requires Spaced(Updates.SPACING, before) && m <= |before|
    requires var start := Startup.Next(anything, true, trig, key, len);
             var s := Run(State(start, Updates.Hold(charge, hold, |hold|)), before, |before|, len);
             var g := Gap(Updates.SPACING, before, |before|);
             && turn.key && !s.start.keyLast && !(turn.trig && s.start.enabled)
             && (turn.trig ==> g >= Updates.SPACING) && Spaced(Updates.GapStep(g, turn.trig), ins)
    requires NoKeyEdge(true, ins) && k <= |ins|
    ensures var powered := State(Startup.Next(anything, true, trig, key, len), Updates.Hold(charge, hold, |hold|));
            var armed := Next(Run(powered, before, |before|, len), turn, len);
            var q := Run(armed, ins, k, len);
            && (KeyStill(anything.keyLast, before, m) ==> Run(powered, before, m, len).start.fault)
            && (q.start.fault <==> Triggers(ins, k) <= len)
            && (!q.start.fault ==> FullWindow(q.charge.acc.regs, Taken(armed, ins, k, len), len))
  {
    hide Updates.PowerUp, Updates.Hold, Updates.OnSchedule, Updates.Inv, Accumulator.Tracks, Window, Run, Taken, FullWindow;
    hide Next, Spaced, Gap, NoKeyEdge, KeyStill;
    var powered := State(Startup.Next(anything, true, trig, key, len), Updates.Hold(charge, hold, |hold|));
    Updates.ResetOnSchedule(charge, hold, Window(len));
    if KeyStill(anything.keyLast, before, m) {
      FaultStands(powered, before, m, len);
    }
    RunInStep(powered, Updates.SPACING, before, |before|, len, []);
    KeyTurnToClear(Run(powered, before, |before|, len), Gap(Updates.SPACING, before, |before|), turn, ins, k, len,
                   [] + Taken(powered, before, |before|, len));
  }
}
