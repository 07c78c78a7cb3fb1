/**
 * The width over runs of triggers. A trigger does not stop a width search, so a search that never finds
 * the far side of its pulse is still under way at the next trigger.
 */
module WidthRuns {
  import opened Words
  import GenGates
  import CalcBaseline
  import CalcIntegral
  import CalcFwhm
  import FindPeak
  import SampleNumber
  import opened DetectorCycle
  import opened WidthSearch

  /** j is the first replayed sample at or above half the peak and f the first after it at or below. */
  predicate Pulse(d: State, v: seq<Signed16>, gateStart: Word32, j: nat, f: nat)
    requires gateStart + 1 + LATCHED < |v|
  {
    var o, height := gateStart + 1, Height(d, v, gateStart);
    && o + FIRST <= j < f < |v|
    && AllBelow(v, o, height, o + FIRST, j) && 2 * Above(v, o, j) + 1 >= height
    && AllAbove(v, o, height, j + 1, f) && 2 * Above(v, o, f) <= height
  }

  /** The cycle up to edge n has such a pulse and its far side has been replayed. */
  ghost predicate Settles(d: State, v: seq<Signed16>, gateStart: Word32, n: nat)
    requires gateStart + 1 + LATCHED < |v|
  {
    exists j: nat, f: nat :: Pulse(d, v, gateStart, j, f) && f + LAG <= n
  }

  /** The first position from a up to b whose sample is not above half the height; b when none is. */
  function FirstFall(v: seq<Signed16>, o: nat, height: int, a: nat, b: nat): (f: nat)
    requires o + LATCHED < |v| && a <= b <= |v|
    ensures a <= f <= b && AllAbove(v, o, height, a, f)
    ensures f < b ==> 2 * Above(v, o, f) <= height
    decreases b - a
  {
    if a == b || 2 * Above(v, o, a) <= height then a else FirstFall(v, o, height, a + 1, b)
  }

  /** A search that has ended stays ended for the rest of its cycle. */
  lemma {:induction false} StaysEnded(d: State, v: seq<Signed16>, gateStart: Word32, m: nat, n: nat)
    requires Receptive(d, gateStart) && gateStart + 1 + LATCHED < m <= n < |v|
    requires Cycle(d, v, gateStart, m).stats.width.phase.Idle?
    ensures Cycle(d, v, gateStart, n).stats.width.phase.Idle?
    ensures Cycle(d, v, gateStart, n).stats.width.fwhm == Cycle(d, v, gateStart, m).stats.width.fwhm
  {
    hide Cycle, Receptive, Height, Above;
    if m < n {
      StaysEnded(d, v, gateStart, m, n - 1);
      StepSearch(d, v, gateStart, n - 2 - gateStart);
    }
  }

  lemma {:induction false} PulseEnds(d: State, v: seq<Signed16>, gateStart: Word32, j: nat, f: nat, n: nat)
    requires Ready(d, gateStart) && gateStart + 1 + LATCHED < |v| && Pulse(d, v, gateStart, j, f) && f + LAG <= n < |v|
    ensures Cycle(d, v, gateStart, n).stats.width.phase.Idle?
    ensures Cycle(d, v, gateStart, n).stats.width.fwhm == Wrap16(f - j)
  {
    WidthIsRunAboveHalf(d, v, gateStart, gateStart + 1, j, f);
    hide Cycle, Height, Above, AllBelow, AllAbove;
    StaysEnded(d, v, gateStart, f + LAG, n);
  }

  lemma FirstsArePulse(d: State, v: seq<Signed16>, gateStart: Word32, j: nat, f: nat)
    requires gateStart + 1 + LATCHED < |v| && gateStart + 1 + FIRST <= j < f < |v|
    requires AllBelow(v, gateStart + 1, Height(d, v, gateStart), gateStart + 1 + FIRST, j)
    requires 2 * Above(v, gateStart + 1, j) + 1 >= Height(d, v, gateStart)
    requires AllAbove(v, gateStart + 1, Height(d, v, gateStart), j + 1, f)
    requires 2 * Above(v, gateStart + 1, f) <= Height(d, v, gateStart)
    ensures Pulse(d, v, gateStart, j, f)
  {
  }

  /** Without such a pulse the search is still under way. */
  lemma {:induction false} StillSearching(d: State, v: seq<Signed16>, gateStart: Word32, n: nat)
    requires Ready(d, gateStart) && gateStart + 1 + LATCHED < n < |v| && !Settles(d, v, gateStart, n)
    ensures !Cycle(d, v, gateStart, n).stats.width.phase.Idle?
  {
    var o, height := gateStart + 1, Height(d, v, gateStart);
    var j := FirstReach(v, o, height, o + FIRST, Max(o + FIRST, n - LAG + 1));
    if j + LAG <= n {
      var f := FirstFall(v, o, height, j + 1, n - LAG + 1);
      hide Cycle, Height, AllBelow, AllAbove, Pulse;
      if f + LAG <= n {
        FirstsArePulse(d, v, gateStart, j, f);
      }
      Widens(d, v, gateStart, o, j, n);
    } else {
      hide Cycle, Height, Above;
      Scans(d, v, gateStart, o, n);
    }
  }

  /**
   * A cycle leaves every machine ready for the next trigger, the width search included, exactly when a
   * pulse was found and its far side replayed, 62 clocks after it came in.
   */
  lemma {:induction false} ReadyAgainIff(d: State, v: seq<Signed16>, gateStart: Word32, n: nat)
    requires Ready(d, gateStart) && gateStart + 1 + LATCHED < n < |v|
    ensures Ready(Cycle(d, v, gateStart, n), gateStart) <==> Settles(d, v, gateStart, n)
  {
    hide Receptive, Cycle, Pulse;
    ReceptiveAgain(d, v, gateStart, n);
    if Settles(d, v, gateStart, n) {
      var j: nat, f: nat :| Pulse(d, v, gateStart, j, f) && f + LAG <= n;
      PulseEnds(d, v, gateStart, j, f, n);
    } else {
      StillSearching(d, v, gateStart, n);
    }
  }

  // ----- runs of triggers -----

  /** The samples from one trigger up to the next, for triggers that leave the gates time to close. */
  predicate Spaced(shots: seq<seq<Signed16>>, gateStart: Word32) {
    forall k :: 0 <= k < |shots| ==> |shots[k]| >= gateStart + 98
  }

  function Run(d: State, shots: seq<seq<Signed16>>, gateStart: Word32, m: nat): State
    requires Spaced(shots, gateStart) && m <= |shots|
  {
    if m == 0 then d else Cycle(Run(d, shots, gateStart, m - 1), shots[m - 1], gateStart, |shots[m - 1]| - 1)
  }

  /** The k-th cycle of the run settles before the next trigger. */
  ghost predicate ShotSettles(d: State, shots: seq<seq<Signed16>>, gateStart: Word32, k: nat)
    requires Spaced(shots, gateStart) && k < |shots|
  {
    Settles(Run(d, shots, gateStart, k), shots[k], gateStart, |shots[k]| - 1)
  }

  /** While every cycle so far has settled the run is ready, and stays so exactly when the next one settles. */
  lemma {:induction false} RunReadyIff(d: State, shots: seq<seq<Signed16>>, gateStart: Word32, m: nat)
    requires Ready(d, gateStart) && Spaced(shots, gateStart) && m <= |shots|
    requires forall k :: 0 <= k < m ==> ShotSettles(d, shots, gateStart, k)
    ensures Ready(Run(d, shots, gateStart, m), gateStart)
    ensures m < |shots| ==> (Ready(Run(d, shots, gateStart, m + 1), gateStart) <==> ShotSettles(d, shots, gateStart, m))
  {
    hide Ready, Settles, Cycle;
    if m > 0 {
      RunReadyIff(d, shots, gateStart, m - 1);
      assert ShotSettles(d, shots, gateStart, m - 1);
    }
    if m < |shots| {
      ReadyAgainIff(Run(d, shots, gateStart, m), shots[m], gateStart, |shots[m]| - 1);
    }
  }

  /**
   * The width over a run: as long as every cycle before settles, each cycle that has a pulse measures
   * 1 plus the length of its own run above half its own peak, whatever the cycles before measured.
   */
  lemma {:induction false} WidthOverRuns(
      d: State, shots: seq<seq<Signed16>>, gateStart: Word32, m: nat, j: nat, f: nat, n: nat)
    requires Ready(d, gateStart) && Spaced(shots, gateStart) && m < |shots|
    requires forall k :: 0 <= k < m ==> ShotSettles(d, shots, gateStart, k)
    requires Pulse(Run(d, shots, gateStart, m), shots[m], gateStart, j, f) && f + LAG <= n < |shots[m]|
    ensures Cycle(Run(d, shots, gateStart, m), shots[m], gateStart, n).stats.width.fwhm == Wrap16(f - j)
  {
    hide Ready, Settles, Cycle, Run, ShotSettles, Pulse;
    RunReadyIff(d, shots, gateStart, m);
    PulseEnds(Run(d, shots, gateStart, m), shots[m], gateStart, j, f, n);
  }

  // ----- a search still under way at a trigger -----

  /** The sample under comparison at edge n, n > 0, is above half the height at that moment. */
  predicate Exceeds(d: State, v: seq<Signed16>, gateStart: Word32, n: nat)
    requires 0 < n < |v|
  {
    var st := Cycle(d, v, gateStart, n - 1).stats;
    2 * st.width.above > st.peak.maxAdc - st.base.baseline
  }

  lemma HalfAt(d: State)
    ensures var st := d.stats;
            st.width.above > CalcFwhm.Level(FindPeak.Peak(st.peak, st.base.baseline))
            <==> 2 * st.width.above > st.peak.maxAdc - st.base.baseline
  {
    HalfIsLevel(d.stats.width.above, FindPeak.Peak(d.stats.peak, d.stats.base.baseline));
  }

  /**
   * A search that has found its pulse but not its end at a trigger starts counting again at zero: it
   * counts the clocks since the trigger for as long as the replayed samples stay above half of whatever
   * the peak and the baseline of the new cycle are at each of them.
   */
  lemma {:induction false} StrayCounts(d: State, v: seq<Signed16>, gateStart: Word32, n: nat)
    requires d.stats.width.phase.FoundPulse? && n < |v|
    requires forall k :: 1 <= k <= n ==> Exceeds(d, v, gateStart, k)
    ensures var w := Cycle(d, v, gateStart, n).stats.width; w.phase.FoundPulse? && w.fwhm == Wrap16(n) && !w.fwhmVal
  {
    hide GenGates.Next, CalcBaseline.Next, CalcIntegral.Next, FindPeak.Next, SampleNumber.Next, Shift, Delayed;
    if n > 0 {
      StrayCounts(d, v, gateStart, n - 1);
      assert Exceeds(d, v, gateStart, n);
      HalfAt(Cycle(d, v, gateStart, n - 1));
    }
  }

  /** It ends at the first that does not, with that count as the width. */
  lemma {:induction false} StrayEnds(d: State, v: seq<Signed16>, gateStart: Word32, n: nat)
    requires d.stats.width.phase.FoundPulse? && 0 < n < |v|
    requires (forall k :: 1 <= k < n ==> Exceeds(d, v, gateStart, k)) && !Exceeds(d, v, gateStart, n)
    ensures var w := Cycle(d, v, gateStart, n).stats.width; w.phase.Idle? && w.fwhmVal && w.fwhm == Wrap16(n - 1)
  {
    hide GenGates.Next, CalcBaseline.Next, CalcIntegral.Next, FindPeak.Next, SampleNumber.Next, Shift, Delayed;
    StrayCounts(d, v, gateStart, n - 1);
    HalfAt(Cycle(d, v, gateStart, n - 1));
  }

  // ----- a search that never ends -----

  lemma {:induction false} SumOfConstant(s: seq<int>, c: int)
    requires forall i :: 0 <= i < |s| ==> s[i] == c
    ensures Sum(s) == |s| * c
  {
    if s != [] {
      SumOfConstant(s[..|s| - 1], c);
    }
  }

  lemma {:induction false} MeanOfConstant(v: seq<Signed16>, c: Signed16, o: nat)
    requires o + LATCHED < |v| && 1 <= c <= 1057 && forall k :: 0 <= k < |v| ==> v[k] == c
    ensures Mean(v, o) == 31 * c / 32 < c
  {
    hide Sum, WrapSigned16;
    var block: seq<int> := v[o + 2..o + 33];
    SumOfConstant(block, c);
    InRange(31 * c);
    assert Sum(block) == 31 * c;
  }

  lemma InRange(x: int)
    requires -0x8000 <= x < 0x8000
    ensures WrapSigned16(x) == x
  {
  }

  lemma {:induction false} TopOfConstant(d: State, v: seq<Signed16>, c: Signed16, gateStart: Word32)
    requires Receptive(d, gateStart) && gateStart + 1 + LATCHED < |v| && 1 <= c && forall k :: 0 <= k < |v| ==> v[k] == c
    ensures Top(d, v, gateStart) == c
  {
    hide Receptive, Cycle, Mean;
    PeakIsFirstMaximum(d, v, gateStart);
    var o := gateStart + 1;
    assert v[o + 36] <= Top(d, v, gateStart);
  }

  /**
   * No spacing makes the search end: on a constant positive sample of up to 1057 it finds the near side
   * and is still counting at every later edge of the cycle.
   */
  lemma {:induction false} ConstantNeverSettles(d: State, v: seq<Signed16>, c: Signed16, gateStart: Word32, n: nat)
    requires Ready(d, gateStart) && gateStart + 1 + LATCHED + LAG < n < |v|
    requires 1 <= c <= 1057 && forall k :: 0 <= k < |v| ==> v[k] == c
    ensures !Ready(Cycle(d, v, gateStart, n), gateStart)
  {
    hide Receptive, Cycle, Mean, Top;
    var o := gateStart + 1;
    MeanOfConstant(v, c, o);
    TopOfConstant(d, v, c, gateStart);
    assert Height(d, v, gateStart) == c - Mean(v, o) > 0;
    hide Height;
    Widens(d, v, gateStart, o, o + FIRST, n);
  }
}
