/**
 * How far apart triggers must be for a late gate: between the opening edge and the latch of a cycle a
 * trigger spoils the next update, and nowhere else. Constant samples of 1000 show each spacing that does.
 */
module GateSpacing {
  import opened Words
  import GenGates
  import CalcBaseline
  import CalcIntegral
  import CalcFwhm
  import FindPeak
  import BeamStats
  import Detector = DetectorCycle
  import Updates = WindowedUpdates
  import opened ChargePath
  import LateTrigger

  const LEVEL: Signed16 := 1000

  /** The least that a sum of 59 terms comes to: each is LEVEL less a baseline of at most 968. */
  const LEAST_SUM := 59 * 32

  predicate Constant(v: seq<Signed16>) { forall k :: 0 <= k < |v| ==> v[k] == LEVEL }

  /** On constant samples the baseline stays below them, so every term of the sum is at least 32. */
  predicate Tame(st: BeamStats.State, age: nat) {
    var b, c := st.base, st.integ;
    && (if b.phase.Accumulating? then b.count <= CalcBaseline.ACCUM_LEN && 0 <= b.accum <= 1000 * b.count else b.accum == 0)
    && 0 <= b.accumLat <= 968
    && (age >= 1 ==> 0 <= b.baseline <= 968)
    && (age >= 2 ==> 32 <= c.raw <= 1000)
    && (age >= 3 ==> 32 <= c.clipped <= 1000)
    && (if c.phase.Accumulating? then
          age >= 3 && c.count <= CalcIntegral.ACCUM_LEN && 32 * c.count <= c.accum <= 1000 * c.count
        else c.accum == 0)
  }

  lemma StepTameBaseline(st: BeamStats.State, age: nat, trig: bool)
    requires Tame(st, age)
    ensures var b := CalcBaseline.Next(st.base, trig, st.gates.baselineGate, LEVEL);
            && (if b.phase.Accumulating? then b.count <= CalcBaseline.ACCUM_LEN && 0 <= b.accum <= 1000 * b.count
                else b.accum == 0)
            && 0 <= b.accumLat <= 968 && 0 <= b.baseline <= 968
  {
  }

  lemma StepTameIntegral(st: BeamStats.State, age: nat, trig: bool)
    requires Tame(st, age) && (age < 2 ==> !st.gates.integralGate)
    ensures var c := CalcIntegral.Next(st.integ, trig, st.gates.integralGate, st.base.baseline, LEVEL);
            && (age >= 1 ==> 32 <= c.raw <= 1000) && (age >= 2 ==> 32 <= c.clipped <= 1000)
            && (if c.phase.Accumulating? then
                  age >= 2 && c.count <= CalcIntegral.ACCUM_LEN && 32 * c.count <= c.accum <= 1000 * c.count
                else c.accum == 0)
  {
  }

  lemma StepTame(d: Detector.State, age: nat, trig: bool, gateStart: Word32)
    requires Tame(d.stats, age) && (age < 2 ==> !d.stats.gates.integralGate)
    ensures Tame(Detector.Next(d, trig, LEVEL, gateStart).stats, age + 1)
  {
    StepTameBaseline(d.stats, age, trig);
    StepTameIntegral(d.stats, age, trig);
    hide CalcBaseline.Next, CalcIntegral.Next, GenGates.Next, FindPeak.Next, CalcFwhm.Next, Detector.Shift, Detector.Delayed;
  }

  lemma TriggerTame(d: Detector.State, adc: Signed16, gateStart: Word32)
    requires Detector.Receptive(d, gateStart)
    ensures Tame(Detector.Next(d, true, adc, gateStart).stats, 0)
  {
    hide GenGates.Next, FindPeak.Next, CalcFwhm.Next, Detector.Shift, Detector.Delayed;
  }

  lemma {:induction false} CycleTame(d: Detector.State, v: seq<Signed16>, gateStart: Word32, n: nat)
    requires Detector.Receptive(d, gateStart) && Constant(v) && n < |v| && gateStart >= 2
    ensures Tame(Detector.Cycle(d, v, gateStart, n).stats, n)
  {
    hide Tame, Detector.Receptive, Detector.Next;
    if n == 0 {
      TriggerTame(d, v[0], gateStart);
    } else {
      CycleTame(d, v, gateStart, n - 1);
      if n - 1 < 2 {
        Detector.CycleWaits(d, v, gateStart, n - 1);
      }
      StepTame(Detector.Cycle(d, v, gateStart, n - 1), n - 1, false, gateStart);
    }
  }

  // ----- the cycle that starts with a trigger among the gates of the one before -----

  /** First edge, counted from the opening one, after which the sum is under way. */
  function First(e: nat): nat { if e <= 34 then 35 else 36 }

  /** The detector m edges after a trigger that came e edges after the opening one. */
  predicate Carries(st: BeamStats.State, e: nat, m: nat) {
    var x, c := e + m, st.integ;
    && GenGates.Open(st.gates, x)
    && if x < First(e) then c.phase.Idle? && !c.startLast
       else if x < First(e) + 60 then c.phase.Accumulating? && c.count == x - First(e)
       else c.phase.Idle? && LEAST_SUM <= c.accumLat <= LateTrigger.CEILING && (x > First(e) + 60 ==> !c.startLast)
  }

  lemma StepCarries(d: Detector.State, e: nat, m: nat, age: nat, gateStart: Word32)
    requires e <= GenGates.CLOSE && Carries(d.stats, e, m) && Tame(d.stats, age)
    ensures Carries(Detector.Next(d, false, LEVEL, gateStart).stats, e, m + 1)
  {
    GenGates.StepOpen(d.stats.gates, e + m, d.num.sampleNum, gateStart);
    assert d.stats.gates.integralGate == (34 <= e + m < GenGates.CLOSE);
    hide GenGates.Open, GenGates.Next, CalcBaseline.Next, FindPeak.Next, CalcFwhm.Next, Detector.Shift, Detector.Delayed;
  }

  /** The trigger falls on the opening edge itself. */
  lemma OpeningCarries(d: Detector.State, v: seq<Signed16>, gateStart: Word32)
    requires 0 < gateStart < |v| && Detector.Waits(d, v, gateStart)
    ensures Carries(Detector.Next(d, true, LEVEL, gateStart).stats, 0, 0)
  {
    hide CalcBaseline.Next, FindPeak.Next, CalcFwhm.Next, Detector.Shift, Detector.Delayed, Detector.LineStands;
  }

  lemma TriggerCarries(d: Detector.State, v: seq<Signed16>, o: nat, e: nat, gateStart: Word32)
    requires o + Detector.LATCHED < |v| && 1 <= e <= GenGates.CLOSE && Detector.Stands(d, v, o, e - 1)
    ensures Carries(Detector.Next(d, true, LEVEL, gateStart).stats, e, 0)
  {
    hide Detector.BaselineStands, Detector.PeakStands, Detector.LineStands, Detector.TermSum, Detector.Term;
    LateTrigger.GatesRunOn(d.stats.gates, e - 1, d.num.sampleNum, gateStart);
    hide GenGates.Next, CalcBaseline.Next, FindPeak.Next, CalcFwhm.Next, Detector.Shift, Detector.Delayed;
  }

  lemma {:induction false} CycleCarries(d: Detector.State, w: seq<Signed16>, e: nat, age: nat, gateStart: Word32, m: nat)
    requires e <= GenGates.CLOSE && Constant(w) && m < |w| && age >= 2 && Tame(d.stats, age)
    requires Carries(Detector.Next(d, true, LEVEL, gateStart).stats, e, 0)
    ensures Tame(Detector.Cycle(d, w, gateStart, m).stats, age + m + 1)
    ensures Carries(Detector.Cycle(d, w, gateStart, m).stats, e, m)
  {
    hide Tame, Carries, Detector.Next;
    if m == 0 {
      StepTame(d, age, true, gateStart);
    } else {
      CycleCarries(d, w, e, age, gateStart, m - 1);
      StepTame(Detector.Cycle(d, w, gateStart, m - 1), age + m, false, gateStart);
      StepCarries(Detector.Cycle(d, w, gateStart, m - 1), e, m - 1, age + m, gateStart);
    }
  }

  /** With the trigger on any of the edges 0 to 94 after the opening one a sum of the wrong cycle is latched. */
  lemma {:induction false} SecondCarries(d: Detector.State, v: seq<Signed16>, w: seq<Signed16>, e: nat, gateStart: Word32, m: nat)
    requires Detector.Receptive(d, gateStart) && gateStart >= 2 && Constant(v) && Constant(w) && m < |w|
    requires e <= GenGates.CLOSE && |v| == gateStart + 1 + e
    ensures Carries(Detector.Cycle(Detector.Cycle(d, v, gateStart, |v| - 1), w, gateStart, m).stats, e, m)
  {
    hide Detector.Receptive, Tame, Carries, Detector.Next, Detector.Stands, Detector.Waits, Detector.Cycle;
    var mid := Detector.Cycle(d, v, gateStart, |v| - 1);
    CycleTame(d, v, gateStart, |v| - 1);
    if e == 0 {
      Detector.CycleWaits(d, v, gateStart, gateStart);
      OpeningCarries(mid, v, gateStart);
    } else {
      var more: seq<Signed16> := seq(Detector.LATCHED + 1, _ => 0);
      Detector.CycleCausal(d, v, more, gateStart, |v| - 1);
      Detector.CycleStands(d, v + more, gateStart, e - 1);
      TriggerCarries(mid, v + more, gateStart + 1, e, gateStart);
    }
    CycleCarries(mid, w, e, |v| - 1, gateStart, m);
  }

  // ----- the exact spacing -----

  /** The update of the second of two cycles takes what that cycle calls for. */
  predicate SecondTakesItsOwn(s: State, v: seq<Signed16>, w: seq<Signed16>, p: Params)
    requires v != [] && |w| > TAKES
  {
    Cycle(Cycle(s, v, p, |v| - 1), w, p, TAKES).upd.acc.regs.newSample == Taken(w, p.gateStart, p.qMin)
  }

  lemma CarriedSample(s: State, e: nat)
    requires Carries(s.det.stats, e, TAKES - 1)
    ensures Sample(s) >= LEAST_SUM
  {
  }

  /** A trigger inside the gates of the cycle before: on constant samples the update takes a sum instead of zero. */
  lemma {:induction false} InsideTakesASum(s: State, v: seq<Signed16>, w: seq<Signed16>, p: Params)
    requires Ready(s, p.gateStart) && p.gateStart > LATEST_START && |v| >= Updates.SPACING && |w| > TAKES
    requires !Clear(|v|, p.gateStart) && Constant(v) && Constant(w) && p.qMin == 0
    ensures !SecondTakesItsOwn(s, v, w, p)
  {
    hide Detector.Receptive, Detector.Cycle, Cycle, Updates.OnSchedule, Detector.TermSum, Carries;
    var second, e := Cycle(s, v, p, |v| - 1), |v| - 1 - p.gateStart;
    if e <= GenGates.CLOSE {
      CycleParts(s, v, p, |v| - 1);
      CycleParts(second, w, p, TAKES - 1);
      SecondCarries(s.det, v, w, e, p.gateStart, TAKES - 1);
      CarriedSample(Cycle(second, w, p, TAKES - 1), e);
      TakesOnSchedule(second, w, p, TAKES - 1);
    } else {
      LateTrigger.TakesEarlierSum(s, v, w, p, e);
      LateTrigger.TermSumAtLeastFirst(v + w, p.gateStart + 1, 59);
    }
  }

  /** A trigger before the opening edge or after the latch leaves the next update alone. */
  lemma {:induction false} ClearTakesItsOwn(s: State, v: seq<Signed16>, w: seq<Signed16>, p: Params)
    requires Ready(s, p.gateStart) && |v| >= Updates.SPACING && Clear(|v|, p.gateStart) && |w| > TAKES
    ensures SecondTakesItsOwn(s, v, w, p)
  {
    hide Ready, Cycle, Taken;
    ReadyAgain(s, v, p);
    SameCycleCharge(Cycle(s, v, p, |v| - 1), w, p, TAKES - 1);
  }

  /**
   * The exact spacing. For a gate start above 1908 and triggers at least 2010 clocks apart, the update
   * after the second trigger takes what its cycle calls for, for all samples and every minimum, if and
   * only if the second trigger comes at most gateStart clocks after the first, before the gates open, or
   * at least gateStart + 97 clocks after it, when the first integral has been latched.
   */
  lemma {:induction false} TakesItsOwnIff(s: State, gateStart: Word32, L: Word13, spacing: nat)
    requires Ready(s, gateStart) && gateStart > LATEST_START && spacing >= Updates.SPACING
    ensures (forall v: seq<Signed16>, w: seq<Signed16>, qMin: Word32 :: |v| == spacing && |w| > TAKES ==>
               SecondTakesItsOwn(s, v, w, Params(gateStart, L, qMin)))
            <==> spacing <= gateStart || gateStart + 97 <= spacing
  {
    hide Ready, SecondTakesItsOwn;
    if Clear(spacing, gateStart) {
      forall v: seq<Signed16>, w: seq<Signed16>, qMin: Word32 | |v| == spacing && |w| > TAKES
        ensures SecondTakesItsOwn(s, v, w, Params(gateStart, L, qMin))
      {
        ClearTakesItsOwn(s, v, w, Params(gateStart, L, qMin));
      }
    } else {
      var v: seq<Signed16>, w: seq<Signed16> := seq(spacing, _ => LEVEL), seq(TAKES + 1, _ => LEVEL);
      InsideTakesASum(s, v, w, Params(gateStart, L, 0));
    }
  }
}
