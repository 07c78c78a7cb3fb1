/** The sample input stage: register, saturating inversion, and the two delay lines. */
module CalcCharge {
  import opened Words
  import opened DetectorCycle

  datatype Regs = Regs(adc: Signed16, inverted: Signed16, line: seq<Signed16>, lineInverted: seq<Signed16>)

  /** Negation that saturates where the result does not fit. */
  function Invert(x: Signed16): Signed16 { Min(-(x as int), 0x7FFF) }

  function NextRegs(r: Regs, raw: Signed16): Regs {
    Regs(raw, Invert(raw), Shift(r.line, r.adc), Shift(r.lineInverted, r.inverted))
  }

  class Entity {
    var adc: Signed16
    var inverted: Signed16
    var line: seq<Signed16>
    var lineInverted: seq<Signed16>

    ghost function View(): Regs
      reads this
    {
      Regs(adc, inverted, line, lineInverted)
    }

    constructor ()
      ensures |line| == |lineInverted| == DELAY
    {
      line, lineInverted := seq(DELAY, _ => 0), seq(DELAY, _ => 0);
    }

    method Clock(raw: Signed16)
      requires |line| == |lineInverted| == DELAY
      modifies this
      ensures View() == NextRegs(old(View()), raw)
      ensures |line| == |lineInverted| == DELAY
    {
      line, lineInverted := [adc] + line[..DELAY - 1], [inverted] + lineInverted[..DELAY - 1];
      adc := raw;
      if raw == -0x8000 {
        inverted := 0x7FFF;
      } else {
        inverted := WrapSigned16(raw * -1);
      }
    }
  }

  function Run(r: Regs, raws: seq<Signed16>, n: nat): Regs
    requires n <= |raws|
  {
    if n == 0 then r else NextRegs(Run(r, raws, n - 1), raws[n - 1])
  }

  /** The lines hold the registered samples of the last 60 clocks, newest first. */
  predicate LinesHold(r: Regs, raws: seq<Signed16>, n: nat)
    requires n <= |raws|
  {
    && |r.line| == |r.lineInverted| == DELAY
    && (n > 0 ==> r.adc == raws[n - 1] && r.inverted == Invert(raws[n - 1]))
    && (forall i :: 0 <= i < DELAY && i + 2 <= n ==> r.line[i] == raws[n - 2 - i])
    && (forall i :: 0 <= i < DELAY && i + 2 <= n ==> r.lineInverted[i] == Invert(raws[n - 2 - i]))
  }

  lemma StepLines(r: Regs, raws: seq<Signed16>, n: nat)
    requires n < |raws| && LinesHold(r, raws, n)
    ensures LinesHold(NextRegs(r, raws[n]), raws, n + 1)
  {
    hide Invert;
  }

  lemma {:induction false} RunLines(r: Regs, raws: seq<Signed16>, n: nat)
    requires n <= |raws| && |r.line| == |r.lineInverted| == DELAY
    ensures LinesHold(Run(r, raws, n), raws, n)
  {
    if n > 0 {
      RunLines(r, raws, n - 1);
      StepLines(Run(r, raws, n - 1), raws, n - 1);
      hide LinesHold, NextRegs;
    }
  }

  /** y is the negative of x, or the largest sample when x is the one that has no negative. */
  predicate Negates(y: Signed16, x: Signed16) { y + x == 0 || (x == -0x8000 && y == 0x7FFF) }

  lemma InvertNegates(x: Signed16)
    ensures Negates(Invert(x), x)
  {
  }

  /**
   * The detectors see each raw sample one clock later, as it is and negated with saturation; the width
   * search sees the same words exactly 60 clocks after that.
   */
  lemma {:induction false} DelayedCopyLagsBySixty(r: Regs, raws: seq<Signed16>, n: nat)
    requires 60 < n <= |raws| && |r.line| == |r.lineInverted| == 60
    ensures var q := Run(r, raws, n);
            && q.adc == raws[n - 1] && (q.inverted + raws[n - 1] == 0 || (raws[n - 1] == -0x8000 && q.inverted == 0x7FFF))
            && Delayed(q.line) == raws[n - 61]
            && (Delayed(q.lineInverted) + raws[n - 61] == 0
                || (raws[n - 61] == -0x8000 && Delayed(q.lineInverted) == 0x7FFF))
            && Delayed(q.line) == Run(r, raws, n - 60).adc && Delayed(q.lineInverted) == Run(r, raws, n - 60).inverted
  {
    RunLines(r, raws, n);
    RunLines(r, raws, n - 60);
    InvertNegates(raws[n - 1]);
    InvertNegates(raws[n - 61]);
    hide Run, Invert;
  }

  // ----- the beam's charge over the raw samples -----

  /** The detector's samples from its trigger on are the inverted words of the input stage, k clocks into its run. */
  predicate FedInverted(r: Regs, raws: seq<Signed16>, k: nat, v: seq<Signed16>) {
    k > 0 && k + |v| <= |raws| + 1 && forall n :: 0 <= n < |v| ==> v[n] == Run(r, raws, k + n).inverted
  }

  lemma {:induction false} FedNegatives(r: Regs, raws: seq<Signed16>, k: nat, v: seq<Signed16>, n: nat)
    requires FedInverted(r, raws, k, v) && n < |v| && |r.line| == |r.lineInverted| == 60
    ensures Negates(v[n], raws[k + n - 1])
  {
    RunLines(r, raws, k + n);
    InvertNegates(raws[k + n - 1]);
    hide Run, Invert;
  }

  /**
   * The charge of a beam pulse over the raw samples, which it pulls down: 59 consecutive raw samples,
   * each negated, with saturation, and taken above the baseline, the first above zero and the other 58
   * above a 32nd of the sum of 31 negated samples before them, and nothing for one that lies below.
   */
  lemma {:induction false} BeamChargeOverRaw(
      d: State, r: Regs, raws: seq<Signed16>, k: nat, v: seq<Signed16>, gateStart: Word32, n: nat,
      negated: seq<Signed16>, terms: seq<int>)
    requires Receptive(d, gateStart) && FedInverted(r, raws, k, v) && |r.line| == |r.lineInverted| == 60
    requires gateStart + 1 + LATCHED <= n < |v| && |negated| == |v| && |terms| == 59
    requires forall i :: 0 <= i < |v| ==> negated[i] == if raws[k + i - 1] == -0x8000 then 0x7FFF else -raws[k + i - 1]
    requires var o := gateStart + 1;
             var base := WrapSigned16(Sum(negated[o + 2..o + 33])) / 32;
             forall i :: 0 <= i < 59 ==> terms[i] == Max(0, negated[o + 34 + i] - if i == 0 then 0 else base)
    ensures Cycle(d, v, gateStart, n).stats.integ.accumLat == Sum(terms)
  {
    hide Receptive, Cycle, Run, Sum, WrapSigned16, Charge;
    forall i | 0 <= i < |v|
      ensures v[i] == negated[i]
    {
      FedNegatives(r, raws, k, v, i);
    }
    assert v == negated;
    IntegralIsCharge(d, v, gateStart, n);
    ChargeIs(v, gateStart + 1, terms);
  }
}
