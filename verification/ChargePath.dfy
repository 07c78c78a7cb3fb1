/**
 * The path of a charge, end to end: the trigger starts a detector cycle and the detect window; when the
 * window ends the accumulator takes whatever the integral register then holds.
 */
module ChargePath {
  import opened Words
  import Accumulator
  import Detector = DetectorCycle
  import Updates = WindowedUpdates

  /** Edge, counted from the trigger, on which the accumulator takes its sample. */
  const TAKES := 2005

  /** The largest gate start whose integral is latched in time for that edge. */
  const LATEST_START := 1908

  datatype State = State(det: Detector.State, upd: Updates.State)

  datatype Params = Params(gateStart: Word32, accumLen: Word13, qMin: Word32)

  /** The integral register read as an unsigned word. */
  function Sample(s: State): Word32 { Wrap32(s.det.stats.integ.accumLat) }

  function UpdInput(s: State, trig: bool, p: Params): Updates.Input {
    Updates.Input(trig, p.accumLen, p.qMin, Sample(s))
  }

  function Next(s: State, trig: bool, adc: Signed16, p: Params): State {
    State(Detector.Next(s.det, trig, adc, p.gateStart), Updates.Next(s.upd, UpdInput(s, trig, p)))
  }

  /** The state after edge n of a cycle whose only trigger is at edge 0. */
  function Cycle(s: State, v: seq<Signed16>, p: Params, n: nat): State
    requires n < |v|
  {
    if n == 0 then Next(s, true, v[0], p) else Next(Cycle(s, v, p, n - 1), false, v[n], p)
  }

  /** Ready for a trigger: detector idle, window and accumulator idle. */
  predicate Ready(s: State, gateStart: Word32) {
    Detector.Receptive(s.det, gateStart) && Updates.OnSchedule(s.upd, Updates.SPACING)
  }

  /** What the accumulator ought to take from the cycle. */
  function Taken(v: seq<Signed16>, gateStart: Word32, qMin: Word32): int
    requires |v| > TAKES
  {
    Max(if gateStart <= LATEST_START then Detector.Charge(v, gateStart + 1) else 0, qMin)
  }

  lemma {:induction false} CycleParts(s: State, v: seq<Signed16>, p: Params, n: nat)
    requires Updates.OnSchedule(s.upd, Updates.SPACING) && n < |v|
    ensures Cycle(s, v, p, n).det == Detector.Cycle(s.det, v, p.gateStart, n)
    ensures Updates.OnSchedule(Cycle(s, v, p, n).upd, Min(n + 1, Updates.SPACING))
  {
    hide Detector.Next, Updates.OnSchedule, Updates.Next;
    if n == 0 {
      Updates.StepOnSchedule(s.upd, Updates.SPACING, UpdInput(s, true, p));
    } else {
      CycleParts(s, v, p, n - 1);
      var q := Cycle(s, v, p, n - 1);
      Updates.StepOnSchedule(q.upd, Min(n, Updates.SPACING), UpdInput(q, false, p));
    }
  }

  /** The value waiting at the accumulator on the edge it takes its sample. */
  lemma {:induction false} SampleInTime(s: State, v: seq<Signed16>, p: Params)
    requires Ready(s, p.gateStart) && |v| > TAKES
    ensures Max(Sample(Cycle(s, v, p, TAKES - 1)), p.qMin) == Taken(v, p.gateStart, p.qMin)
  {
    hide Detector.Receptive, Detector.Cycle, Detector.Charge, Cycle, Updates.OnSchedule;
    CycleParts(s, v, p, TAKES - 1);
    if p.gateStart <= LATEST_START {
      Detector.IntegralIsCharge(s.det, v, p.gateStart, TAKES - 1);
    } else {
      Detector.IntegralZeroUntilLatched(s.det, v, p.gateStart, TAKES - 1);
    }
  }

  /** The accumulator takes one sample per cycle, on edge 2005, and it is what the register holds there. */
  lemma {:induction false} TakesOnSchedule(s: State, v: seq<Signed16>, p: Params, n: nat)
    requires Updates.OnSchedule(s.upd, Updates.SPACING) && n + 1 < |v|
    ensures Updates.Accepts(Cycle(s, v, p, n).upd) <==> n + 1 == TAKES
    ensures n + 1 == TAKES ==>
              Cycle(s, v, p, TAKES).upd.acc.regs.newSample == Max(Sample(Cycle(s, v, p, TAKES - 1)), p.qMin)
  {
    hide Detector.Next, Sample;
    CycleParts(s, v, p, n);
  }

  /**
   * Same-cycle charge: in a cycle that finds the detector idle the accumulator takes one sample, on
   * edge 2005. For a gate start up to 1908 it is this very cycle's charge, raised to the minimum; for
   * any later gate start it is the zero left by the trigger instead.
   */
  lemma {:induction false} SameCycleCharge(s: State, v: seq<Signed16>, p: Params, n: nat)
    requires Ready(s, p.gateStart) && |v| > TAKES && n + 1 < |v|
    ensures Updates.Accepts(Cycle(s, v, p, n).upd) <==> n + 1 == TAKES
    ensures n + 1 == TAKES ==> Cycle(s, v, p, TAKES).upd.acc.regs.newSample == Taken(v, p.gateStart, p.qMin)
  {
    hide Detector.Receptive, Cycle, Taken, Sample, Updates.OnSchedule, Updates.Accepts;
    TakesOnSchedule(s, v, p, n);
    SampleInTime(s, v, p);
  }

  lemma StepHistory(q: State, p: Params, h: seq<int>, trig: bool)
    requires Accumulator.Tracks(q.upd.acc, p.accumLen, h)
    ensures Accumulator.Tracks(Updates.Next(q.upd, UpdInput(q, trig, p)).acc, p.accumLen,
                               if Updates.Accepts(q.upd) then h + [Max(Sample(q), p.qMin)] else h)
  {
    hide Accumulator.Tracks, Accumulator.Next;
    Accumulator.StepTracks(q.upd.acc, Updates.AccInput(q.upd, UpdInput(q, trig, p)), p.accumLen, h);
  }

  lemma {:induction false} CycleHistory(s: State, v: seq<Signed16>, p: Params, h: seq<int>, n: nat)
    requires Ready(s, p.gateStart) && Accumulator.Tracks(s.upd.acc, p.accumLen, h) && n < |v| && |v| > TAKES
    ensures Accumulator.Tracks(Cycle(s, v, p, n).upd.acc, p.accumLen, if n < TAKES then h else h + [Taken(v, p.gateStart, p.qMin)])
  {
    hide Accumulator.Tracks, Updates.Next, Detector.Next, Detector.Receptive, Sample, Taken, Updates.Accepts;
    if n == 0 {
      AcceptsWhen(s.upd, Updates.SPACING);
      StepHistory(s, p, h, true);
    } else {
      CycleHistory(s, v, p, h, n - 1);
      CycleParts(s, v, p, n - 1);
      var q := Cycle(s, v, p, n - 1);
      AcceptsWhen(q.upd, Min(n, Updates.SPACING));
      if n == TAKES {
        SampleInTime(s, v, p);
      }
      StepHistory(q, p, if n - 1 < TAKES then h else h + [Taken(v, p.gateStart, p.qMin)], false);
    }
  }

  lemma AcceptsWhen(u: Updates.State, g: nat)
    requires Updates.OnSchedule(u, g)
    ensures Updates.Accepts(u) <==> g == TAKES
  {
  }

  // ----- whole runs of cycles -----

  /** One trigger and the samples from it up to the next trigger. */
  datatype Shot = Shot(v: seq<Signed16>, qMin: Word32)

  /**
   * Triggers far enough apart for the update, and each either before the gates of the cycle before it
   * open or after its integral is latched.
   */
  predicate Spaced(shots: seq<Shot>, gateStart: Word32) {
    forall k :: 0 <= k < |shots| ==> |shots[k].v| >= Updates.SPACING && Clear(|shots[k].v|, gateStart)
  }

  /** Clocks from one trigger to the next that keep the next one out of the gates. */
  predicate Clear(spacing: nat, gateStart: Word32) { spacing <= gateStart || gateStart + 97 <= spacing }

  /** The state after the first m shots. */
  function Run(s: State, shots: seq<Shot>, gateStart: Word32, L: Word13, m: nat): State
    requires Spaced(shots, gateStart) && m <= |shots|
  {
    if m == 0 then s
    else
      var shot := shots[m - 1];
      Cycle(Run(s, shots, gateStart, L, m - 1), shot.v, Params(gateStart, L, shot.qMin), |shot.v| - 1)
  }

  /** What the first m shots ought to add: each its own charge, or zero for a late gate, raised to the minimum. */
  function Charges(shots: seq<Shot>, gateStart: Word32, m: nat): seq<int>
    requires Spaced(shots, gateStart) && m <= |shots|
  {
    if m == 0 then []
    else Charges(shots, gateStart, m - 1) + [Taken(shots[m - 1].v, gateStart, shots[m - 1].qMin)]
  }

  lemma {:induction false} ReadyAgain(s: State, v: seq<Signed16>, p: Params)
    requires Ready(s, p.gateStart) && |v| >= Updates.SPACING && Clear(|v|, p.gateStart)
    ensures Ready(Cycle(s, v, p, |v| - 1), p.gateStart)
  {
    hide Detector.Receptive, Cycle, Detector.Cycle, Updates.OnSchedule;
    CycleParts(s, v, p, |v| - 1);
    Detector.ReceptiveAgain(s.det, v, p.gateStart, |v| - 1);
  }

  lemma {:induction false} RunHistory(s: State, shots: seq<Shot>, gateStart: Word32, L: Word13, m: nat)
    requires Ready(s, gateStart) && Accumulator.Tracks(s.upd.acc, L, [])
    requires Spaced(shots, gateStart) && m <= |shots|
    ensures Ready(Run(s, shots, gateStart, L, m), gateStart)
    ensures Accumulator.Tracks(Run(s, shots, gateStart, L, m).upd.acc, L, Charges(shots, gateStart, m))
  {
    hide Ready, Cycle, Accumulator.Tracks, Taken;
    if m > 0 {
      RunHistory(s, shots, gateStart, L, m - 1);
      var q, shot := Run(s, shots, gateStart, L, m - 1), shots[m - 1];
      var p := Params(gateStart, L, shot.qMin);
      ReadyAgain(q, shot.v, p);
      CycleHistory(q, shot.v, p, Charges(shots, gateStart, m - 1), |shot.v| - 1);
    }
  }

  /** In every shot of such a run the accumulator takes what it ought to: its own charge, or zero for a late gate. */
  lemma {:induction false} EveryShotTakesItsOwn(s: State, shots: seq<Shot>, gateStart: Word32, L: Word13, m: nat)
    requires Ready(s, gateStart) && Accumulator.Tracks(s.upd.acc, L, [])
    requires Spaced(shots, gateStart) && m < |shots|
    ensures var shot := shots[m];
            Cycle(Run(s, shots, gateStart, L, m), shot.v, Params(gateStart, L, shot.qMin), TAKES).upd.acc.regs.newSample
            == Taken(shot.v, gateStart, shot.qMin)
  {
    hide Ready, Cycle, Accumulator.Tracks, Taken;
    RunHistory(s, shots, gateStart, L, m);
    SameCycleCharge(Run(s, shots, gateStart, L, m), shots[m].v, Params(gateStart, L, shots[m].qMin), TAKES - 1);
  }

  /**
   * End to end: for any samples and any gate start, with triggers far enough apart, the output before
   * each trigger is the 32-bit sum over the last L shots. Up to gate start 1908 each counts with the
   * sum of its own 59 clipped samples above the block-averaged baseline, above it with zero, and never
   * with less than the minimum.
   */
  lemma {:induction false} AccumulatesLastCharges(s: State, shots: seq<Shot>, gateStart: Word32, L: Word13, m: nat)
    requires Ready(s, gateStart) && Accumulator.Tracks(s.upd.acc, L, [])
    requires Spaced(shots, gateStart) && m <= |shots|
    ensures Run(s, shots, gateStart, L, m).upd.acc.regs.accum
            == Wrap32(Sum(LastOf(Charges(shots, gateStart, m), L)))
  {
    hide Run, Charges, Detector.Receptive, Accumulator.Ring, Accumulator.Counts;
    RunHistory(s, shots, gateStart, L, m);
  }

  // ----- from power-up -----

  /** The declared power-up values: every machine in its first state, gates and sum low; the rest is open. */
  predicate PowerUp(s: State) {
    var stats := s.det.stats;
    && |s.det.line| == Detector.DELAY && Updates.PowerUp(s.upd)
    && stats.gates.phase.Idle? && stats.base.phase.Idle? && stats.integ.phase.Idle? && stats.integ.accum == 0
    && !stats.gates.baselineGate && !stats.gates.integralGate
  }

  /** One clock without a trigger while the accumulator, which alone has a reset, is held in it. */
  function HoldNext(s: State, adc: Signed16, p: Params): State {
    State(Detector.Next(s.det, false, adc, p.gateStart), Updates.HoldNext(s.upd, UpdInput(s, false, p)))
  }

  function Hold(s: State, v: seq<Signed16>, p: Params, n: nat): State
    requires n <= |v|
  {
    if n == 0 then s else HoldNext(Hold(s, v, p, n - 1), v[n - 1], p)
  }

  lemma StepHeld(s: State, adc: Signed16, p: Params, n: nat)
    requires PowerUp(s) && Updates.Held(s.upd, p.accumLen, n) && 1 <= p.accumLen < Accumulator.DEPTH
    ensures PowerUp(HoldNext(s, adc, p)) && Updates.Held(HoldNext(s, adc, p).upd, p.accumLen, n + 1)
  {
    Updates.StepHeld(s.upd, UpdInput(s, false, p), n);
    hide Updates.HoldNext;
  }

  lemma {:induction false} HoldHeld(s: State, v: seq<Signed16>, p: Params, n: nat)
    requires PowerUp(s) && 1 <= p.accumLen < Accumulator.DEPTH && n <= |v|
    ensures PowerUp(Hold(s, v, p, n)) && Updates.Held(Hold(s, v, p, n).upd, p.accumLen, n)
  {
    hide HoldNext, PowerUp;
    if n > 0 {
      HoldHeld(s, v, p, n - 1);
      hide Updates.Held;
      StepHeld(Hold(s, v, p, n - 1), v[n - 1], p, n - 1);
    } else {
      PowerUpParts(s);
    }
  }

  lemma PowerUpParts(s: State)
    requires PowerUp(s)
    ensures Updates.PowerUp(s.upd) && forall gateStart :: Detector.Receptive(s.det, gateStart)
  {
  }

  /** From power-up, three clocks in reset without a trigger bring the whole path to its start condition. */
  lemma {:induction false} ResetMakesReady(s: State, v: seq<Signed16>, p: Params)
    requires PowerUp(s) && 1 <= p.accumLen < Accumulator.DEPTH && |v| >= 3
    ensures var r := Hold(s, v, p, |v|); Ready(r, p.gateStart) && Accumulator.Tracks(r.upd.acc, p.accumLen, [])
  {
    hide PowerUp, Updates.Held, Hold, Accumulator.Tracks, Updates.OnSchedule, Detector.Receptive;
    HoldHeld(s, v, p, |v|);
    PowerUpParts(Hold(s, v, p, |v|));
    Updates.HeldOnSchedule(Hold(s, v, p, |v|).upd, p.accumLen, |v|);
  }

  /** The end-to-end law from power-up: three or more clocks in reset, then any spaced shots. */
  lemma {:induction false} AccumulatesFromReset(
      s: State, v: seq<Signed16>, qMin: Word32, shots: seq<Shot>, gateStart: Word32, L: Word13, m: nat)
    requires PowerUp(s) && 1 <= L <= 8190 && |v| >= 3
    requires Spaced(shots, gateStart) && m <= |shots|
    ensures Run(Hold(s, v, Params(gateStart, L, qMin), |v|), shots, gateStart, L, m).upd.acc.regs.accum
            == Wrap32(Sum(LastOf(Charges(shots, gateStart, m), L)))
  {
    hide PowerUp, Ready, Accumulator.Tracks, Hold, Run, Charges;
    ResetMakesReady(s, v, Params(gateStart, L, qMin));
    AccumulatesLastCharges(Hold(s, v, Params(gateStart, L, qMin), |v|), shots, gateStart, L, m);
  }
}
