/**
 * The width search of a detector cycle: it replays the samples 60 clocks late, so that a peak found at
 * the end of the gate can still be measured from its rising side. Positions k are edges of the cycle.
 */
module WidthSearch {
  import opened Words
  import GenGates
  import CalcBaseline
  import CalcIntegral
  import CalcFwhm
  import FindPeak
  import SampleNumber
  import opened DetectorCycle

  /** The first sample the search looks at, one before the peak gate, is the one at edge o + 35. */
  const FIRST := 35

  /** Clocks between taking a sample in and scanning it. */
  const LAG := 62

  /** What a trigger must find for its width to be measured: also no search or peak strobe under way. */
  predicate Ready(d: State, gateStart: Word32) {
    Receptive(d, gateStart) && !d.stats.peak.peakVal && d.stats.width.phase.Idle?
  }

  function Above(v: seq<Signed16>, o: nat, k: nat): int
    requires o + LATCHED < |v| && k < |v|
  {
    v[k] - Mean(v, o)
  }

  /** The maximum that the peak finder holds when its gate closes. */
  function Top(d: State, v: seq<Signed16>, gateStart: Word32): Signed16
    requires gateStart + 1 + LATCHED < |v|
  {
    Cycle(d, v, gateStart, gateStart + 1 + LATCHED).stats.peak.maxAdc
  }

  /** The peak above the baseline. A sample is at half of it or above when 2x + 1 >= p, and above when 2x > p. */
  function Height(d: State, v: seq<Signed16>, gateStart: Word32): int
    requires gateStart + 1 + LATCHED < |v|
  {
    Top(d, v, gateStart) - Mean(v, gateStart + 1)
  }

  /** The comparisons with the rounded level are those with half the height. */
  lemma HalfIsLevel(x: int, height: Signed17)
    ensures x >= CalcFwhm.Level(height) <==> 2 * x + 1 >= height
    ensures x > CalcFwhm.Level(height) <==> 2 * x > height
  {
  }

  /** Every sample at lo..hi-1 lies below half the height. */
  predicate AllBelow(v: seq<Signed16>, o: nat, height: int, lo: nat, hi: int)
    requires o + LATCHED < |v| && hi <= |v|
  {
    forall k :: lo <= k < hi ==> 2 * (v[k] - Mean(v, o)) + 1 < height
  }

  /** Every sample at lo..hi-1 lies above half the height. */
  predicate AllAbove(v: seq<Signed16>, o: nat, height: int, lo: nat, hi: int)
    requires o + LATCHED < |v| && hi <= |v|
  {
    forall k :: lo <= k < hi ==> 2 * (v[k] - Mean(v, o)) > height
  }

  /** The two-stage subtraction runs 60 and 61 clocks behind the samples. */
  ghost predicate Replays(q: State, v: seq<Signed16>, o: nat, e: nat, top: Signed16)
    requires LATCHED <= e && o + e < |v|
  {
    && q.stats.peak.maxAdc == top
    && q.stats.width.raw == Above(v, o, o + e - DELAY)
    && (e > LATCHED ==> q.stats.width.above == Above(v, o, o + e - DELAY - 1))
  }

  lemma StepReplays(q: State, v: seq<Signed16>, gateStart: Word32, o: nat, e: nat)
    requires o == gateStart + 1 && LATCHED - 1 <= e && o + e + 1 < |v| && Stands(q, v, o, e)
    requires e >= LATCHED ==> Replays(q, v, o, e, q.stats.peak.maxAdc)
    ensures var q' := Next(q, false, v[o + e + 1], gateStart);
            && Replays(q', v, o, e + 1, q'.stats.peak.maxAdc)
            && (e >= LATCHED ==> q'.stats.peak.maxAdc == q.stats.peak.maxAdc)
  {
    hide Mean, PeakOver, IntegralStands, Term, TermSum;
    assert q.stats.base.baseline == Mean(v, o);
    assert Delayed(q.line) == v[o + e - (DELAY - 1)];
  }

  lemma {:induction false} CycleReplays(d: State, v: seq<Signed16>, gateStart: Word32, e: nat)
    requires Receptive(d, gateStart) && LATCHED <= e && gateStart + 1 + e < |v|
    ensures Replays(Cycle(d, v, gateStart, gateStart + 1 + e), v, gateStart + 1, e, Top(d, v, gateStart))
  {
    hide Receptive, Stands, Replays, Next;
    CycleStands(d, v, gateStart, e - 1);
    if e > LATCHED {
      CycleReplays(d, v, gateStart, e - 1);
      KeepsTop(Cycle(d, v, gateStart, gateStart + e), v, gateStart + 1, e - 1, Top(d, v, gateStart));
    }
    StepReplays(Cycle(d, v, gateStart, gateStart + e), v, gateStart, gateStart + 1, e - 1);
  }

  lemma KeepsTop(q: State, v: seq<Signed16>, o: nat, e: nat, top: Signed16)
    requires LATCHED <= e && o + e < |v| && Replays(q, v, o, e, top)
    ensures q.stats.peak.maxAdc == top
  {
  }

  /** One clock of the search after the peak strobe: it compares the sample 62 clocks back. */
  lemma {:induction false} StepSearch(d: State, v: seq<Signed16>, gateStart: Word32, e: nat)
    requires Receptive(d, gateStart) && LATCHED < e && gateStart + 1 + e + 1 < |v|
    ensures var o := gateStart + 1;
            var w, w' := Cycle(d, v, gateStart, o + e).stats.width, Cycle(d, v, gateStart, o + e + 1).stats.width;
            var x, height := Above(v, o, o + e + 1 - LAG), Height(d, v, gateStart);
            && (w.phase.Idle? ==> w'.phase.Idle? && w'.fwhm == w.fwhm && !w'.fwhmVal)
            && (w.phase.StartFwhm? ==>
                  w' == w.(phase := if 2 * x + 1 >= height then CalcFwhm.FoundPulse else CalcFwhm.StartFwhm, fwhm := w'.fwhm,
                           raw := w'.raw, above := w'.above)
                  && w'.fwhm == if 2 * x + 1 >= height then Wrap16(w.fwhm + 1) else w.fwhm)
            && (w.phase.FoundPulse? ==>
                  if 2 * x <= height then w'.phase.Idle? && w'.fwhmVal && w'.fwhm == w.fwhm
                  else w'.phase.FoundPulse? && w'.fwhm == Wrap16(w.fwhm + 1) && w'.fwhmVal == w.fwhmVal)
  {
    hide Receptive, Mean, PeakOver, IntegralStands, Term, TermSum, LineStands, Shift, Delayed, CalcFwhm.Level;
    hide SampleNumber.Next, GenGates.Next, CalcBaseline.Next, CalcIntegral.Next, FindPeak.Next, GenGates.Open;
    CycleStands(d, v, gateStart, e);
    CycleReplays(d, v, gateStart, e);
    HalfIsLevel(Above(v, gateStart + 1, gateStart + 1 + e + 1 - LAG), Height(d, v, gateStart));
  }

  lemma TriggerKeepsStrobe(d: State, v: seq<Signed16>, gateStart: Word32)
    requires v != []
    ensures Cycle(d, v, gateStart, 0).stats.peak.peakVal == d.stats.peak.peakVal
  {
  }

  lemma {:induction false} NoStrobeBefore(d: State, v: seq<Signed16>, gateStart: Word32, n: nat)
    requires Receptive(d, gateStart) && !d.stats.peak.peakVal
    requires gateStart + 1 + LATCHED < |v| && n < gateStart + 1 + LATCHED
    ensures !Cycle(d, v, gateStart, n).stats.peak.peakVal
  {
    hide Receptive, Cycle, PeakOver, IntegralStands, BaselineStands, LineStands;
    if n == 0 {
      TriggerKeepsStrobe(d, v, gateStart);
    } else if n <= gateStart {
      CycleWaits(d, v, gateStart, n);
    } else {
      CycleStands(d, v, gateStart, n - (gateStart + 1));
    }
  }

  /** A search that was idle at the trigger stays so until the peak strobe. */
  lemma {:induction false} StaysIdle(d: State, v: seq<Signed16>, gateStart: Word32, n: nat)
    requires Ready(d, gateStart) && gateStart + 1 + LATCHED < |v| && n <= gateStart + 1 + LATCHED
    ensures Cycle(d, v, gateStart, n).stats.width.phase.Idle?
  {
    hide Receptive, Shift, Delayed, GenGates.Next, CalcBaseline.Next, CalcIntegral.Next, FindPeak.Next, SampleNumber.Next;
    if n > 0 {
      StaysIdle(d, v, gateStart, n - 1);
      NoStrobeBefore(d, v, gateStart, n - 1);
    }
  }

  lemma {:induction false} SearchStarts(d: State, v: seq<Signed16>, gateStart: Word32)
    requires Ready(d, gateStart) && gateStart + 1 + LATCHED + 1 < |v|
    ensures var w := Cycle(d, v, gateStart, gateStart + 1 + LATCHED + 1).stats.width;
            w.phase.StartFwhm? && w.fwhm == 0
  {
    hide Receptive, Mean, PeakOver, IntegralStands, Term, TermSum, LineStands;
    StaysIdle(d, v, gateStart, gateStart + 1 + LATCHED);
    CycleStands(d, v, gateStart, LATCHED);
  }

  /** While no sample has reached half the height the search keeps scanning. */
  lemma {:induction false} Scans(d: State, v: seq<Signed16>, gateStart: Word32, o: nat, n: nat)
    requires Ready(d, gateStart) && o == gateStart + 1 && o + LATCHED < n < |v|
    requires AllBelow(v, o, Height(d, v, gateStart), o + FIRST, n - LAG + 1)
    ensures var w := Cycle(d, v, gateStart, n).stats.width;
            w.phase.StartFwhm? && w.fwhm == 0
  {
    hide Cycle, Height, Mean;
    if n == o + LATCHED + 1 {
      SearchStarts(d, v, gateStart);
    } else {
      Scans(d, v, gateStart, o, n - 1);
      StepSearch(d, v, gateStart, n - 1 - o);
    }
  }

  /** The rising side was at j; up to edge n every later scanned sample has stayed above half the height. */
  lemma {:induction false} Widens(d: State, v: seq<Signed16>, gateStart: Word32, o: nat, j: nat, n: nat)
    requires Ready(d, gateStart) && o == gateStart + 1 && o + FIRST <= j && j + LAG <= n < |v| && o + LATCHED < |v|
    requires AllBelow(v, o, Height(d, v, gateStart), o + FIRST, j)
    requires 2 * Above(v, o, j) + 1 >= Height(d, v, gateStart)
    requires AllAbove(v, o, Height(d, v, gateStart), j + 1, n - LAG + 1)
    ensures var w := Cycle(d, v, gateStart, n).stats.width;
            w.phase.FoundPulse? && w.fwhm == Wrap16(n - LAG - j + 1)
  {
    hide Cycle, Height, Mean;
    if n == j + LAG {
      Scans(d, v, gateStart, o, n - 1);
    } else {
      Widens(d, v, gateStart, o, j, n - 1);
    }
    StepSearch(d, v, gateStart, n - 1 - o);
  }

  /**
   * When j is the first scanned sample at or above half the peak and f the first after it at or below,
   * the search ends 62 clocks after f with width f - j, which is 1 for j plus the length of the run
   * above half the peak, modulo 2^16.
   */
  lemma {:induction false} WidthIsRunAboveHalf(
      d: State, v: seq<Signed16>, gateStart: Word32, o: nat, j: nat, f: nat)
    requires Ready(d, gateStart) && o == gateStart + 1 && o + FIRST <= j < f && f + LAG < |v|
    requires AllBelow(v, o, Height(d, v, gateStart), o + FIRST, j)
    requires 2 * Above(v, o, j) + 1 >= Height(d, v, gateStart)
    requires AllAbove(v, o, Height(d, v, gateStart), j + 1, f)
    requires 2 * Above(v, o, f) <= Height(d, v, gateStart)
    ensures var w := Cycle(d, v, gateStart, f + LAG).stats.width;
            w.phase.Idle? && w.fwhmVal && w.fwhm == Wrap16(f - j)
  {
    hide Cycle, Height, Mean;
    Widens(d, v, gateStart, o, j, f + LAG - 1);
    StepSearch(d, v, gateStart, f + LAG - 1 - o);
  }

  /** The first position from a up to b whose sample reaches half the height; b when none does. */
  function FirstReach(v: seq<Signed16>, o: nat, height: int, a: nat, b: nat): (j: nat)
    requires o + LATCHED < |v| && a <= b <= |v|
    ensures a <= j <= b && AllBelow(v, o, height, a, j)
    ensures j < b ==> 2 * Above(v, o, j) + 1 >= height
    decreases b - a
  {
    if a == b || 2 * Above(v, o, a) + 1 >= height then a else FirstReach(v, o, height, a + 1, b)
  }

  /**
   * The search leaves its scanning phase within the 61 samples at edges o + 35 .. o + 95 exactly when
   * one of them reaches half the peak.
   */
  lemma {:induction false} LeavesScanIff(d: State, v: seq<Signed16>, gateStart: Word32, o: nat)
    requires Ready(d, gateStart) && o == gateStart + 1 && o + LATCHED + LAG < |v|
    ensures (exists n :: o + LATCHED < n <= o + LATCHED + LAG && Cycle(d, v, gateStart, n).stats.width.phase.FoundPulse?)
            <==> !AllBelow(v, o, Height(d, v, gateStart), o + FIRST, o + LATCHED + 1)
  {
    var height := Height(d, v, gateStart);
    var j := FirstReach(v, o, height, o + FIRST, o + LATCHED + 1);
    hide Cycle, Height, FirstReach, Mean;
    if j <= o + LATCHED {
      assert !AllBelow(v, o, height, o + FIRST, o + LATCHED + 1);
      Widens(d, v, gateStart, o, j, j + LAG);
      assert Cycle(d, v, gateStart, j + LAG).stats.width.phase.FoundPulse?;
    } else {
      forall n | o + LATCHED < n <= o + LATCHED + LAG
        ensures !Cycle(d, v, gateStart, n).stats.width.phase.FoundPulse?
      {
        Scans(d, v, gateStart, o, n);
      }
    }
  }

  /**
   * The replay is deep enough: when some gated sample rose above the floor and the peak is not
   * negative, the search leaves its scanning phase within those 61 samples.
   */
  lemma {:induction false} ReplayReachesPeak(d: State, v: seq<Signed16>, gateStart: Word32, o: nat)
    requires Ready(d, gateStart) && o == gateStart + 1 && o + LATCHED + LAG < |v|
    requires Top(d, v, gateStart) != FindPeak.FLOOR && Top(d, v, gateStart) >= Mean(v, o)
    ensures exists n :: o + LATCHED < n <= o + LATCHED + LAG
                        && Cycle(d, v, gateStart, n).stats.width.phase.FoundPulse?
  {
    hide Cycle, Mean;
    PeakIsFirstMaximum(d, v, gateStart);
    var p :| o + 36 <= p <= o + LATCHED && v[p] == Top(d, v, gateStart);
    assert !AllBelow(v, o, Height(d, v, gateStart), o + FIRST, o + LATCHED + 1) by {
      assert v[p] - Mean(v, o) >= Height(d, v, gateStart) >= 0;
    }
    hide Height, AllBelow;
    LeavesScanIff(d, v, gateStart, o);
  }
}
