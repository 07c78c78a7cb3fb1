/** One event channel: a delayed pulse of programmable width after its event code. */
module EventRcvChan {
  import opened Words

  datatype Regs = Regs(delayCnt: Word32, widthCnt: Word32, startDelay: bool, startWidth: bool)

  datatype Params = Params(event: Word8, delay: Word32, width: Word32, inverted: bool)

  function Next(r: Regs, reset: bool, p: Params, event: Word8): Regs {
    if reset then Regs(0, 0, false, false)
    else Regs(
      delayCnt := if r.startDelay then Wrap32(r.delayCnt + 1) else if r.delayCnt >= p.delay then 0 else r.delayCnt,
      widthCnt := if r.startWidth then Wrap32(r.widthCnt + 1) else if r.widthCnt >= p.width then 0 else r.widthCnt,
      startDelay := event == p.event || (r.startDelay && r.delayCnt < p.delay),
      startWidth := r.delayCnt > p.delay || (r.startWidth && r.widthCnt < p.width))
  }

  /** The concurrent output: the pulse with its polarity, forced low for a zero delay or width. */
  function Trigger(r: Regs, p: Params): bool {
    p.delay != 0 && p.width != 0 && r.startWidth != p.inverted
  }

  class Entity {
    var delayCnt: Word32
    var widthCnt: Word32
    var startDelay: bool
    var startWidth: bool

    ghost function View(): Regs
      reads this
    {
      Regs(delayCnt, widthCnt, startDelay, startWidth)
    }

    constructor ()
      ensures View() == Regs(0, 0, false, false)
    {
      delayCnt, widthCnt, startDelay, startWidth := 0, 0, false, false;
    }

    /** The two counter processes and the two control processes on one rising edge. */
    method Clock(reset: bool, p: Params, event: Word8)
      modifies this
      ensures View() == Next(old(View()), reset, p, event)
    {
      var wasDelayCnt, wasWidthCnt := delayCnt, widthCnt;
      if reset {
        delayCnt, widthCnt, startDelay, startWidth := 0, 0, false, false;
        return;
      }
      if startDelay {
        delayCnt := Wrap32(wasDelayCnt + 1);
      } else if wasDelayCnt >= p.delay {
        delayCnt := 0;
      }
      if startWidth {
        widthCnt := Wrap32(wasWidthCnt + 1);
      } else if wasWidthCnt >= p.width {
        widthCnt := 0;
      }
      if p.event == event {
        startDelay := true;
      } else if wasDelayCnt >= p.delay {
        startDelay := false;
      }
      if wasDelayCnt > p.delay {
        startWidth := true;
      } else if wasWidthCnt >= p.width {
        startWidth := false;
      }
    }
  }

  const QUIET := Regs(0, 0, false, false)

  /** The state n clocks after an event that finds the channel quiet, with no other event since. */
  function Run(p: Params, others: seq<Word8>, n: nat): Regs
    requires n <= |others|
  {
    if n == 0 then Next(QUIET, false, p, p.event) else Next(Run(p, others, n - 1), false, p, others[n - 1])
  }

  predicate NoEvent(p: Params, others: seq<Word8>) { p.event !in others }

  /** No other event once the delay has been counted; those that come while it is counted are let through. */
  predicate NoLateEvent(p: Params, others: seq<Word8>) {
    forall k :: p.delay <= k < |others| ==> others[k] != p.event
  }

  /** The largest delay whose counter can still pass it: one less than the largest 32-bit number. */
  const MAX_DELAY := 0xFFFF_FFFE

  /** Where the channel stands n clocks after the event, for a delay up to MAX_DELAY. */
  predicate Stands(r: Regs, p: Params, n: nat)
    requires p.delay <= MAX_DELAY
  {
    var d, w := p.delay, p.width;
    r == if n <= d then Regs(n, 0, true, false)
         else if n == d + 1 then Regs(d + 1, 0, false, false)
         else if n <= d + 2 + w then Regs(0, n - d - 2, false, true)
         else if n == d + 3 + w then Regs(0, Wrap32(w + 1), false, false)
         else QUIET
  }

  lemma StepStands(r: Regs, p: Params, n: nat, event: Word8)
    requires 1 <= p.delay <= MAX_DELAY && p.width >= 1 && (event != p.event || n < p.delay) && Stands(r, p, n)
    ensures Stands(Next(r, false, p, event), p, n + 1)
  {
  }

  lemma {:induction false} RunStands(p: Params, others: seq<Word8>, n: nat)
    requires 1 <= p.delay <= MAX_DELAY && p.width >= 1 && n <= |others| && NoLateEvent(p, others)
    ensures Stands(Run(p, others, n), p, n)
  {
    if n > 0 {
      RunStands(p, others, n - 1);
      StepStands(Run(p, others, n - 1), p, n - 1, others[n - 1]);
      hide Stands, Next;
    }
  }

  /**
   * An event that no other follows once its delay is counted gives exactly one pulse: it rises delay + 2 clocks after the event, lasts
   * width + 1 clocks, and the channel is quiet again two clocks later. This covers every width from 1
   * and every delay from 1 to 2^32 - 2.
   */
  lemma {:induction false} OnePulse(p: Params, others: seq<Word8>, n: nat)
    requires 1 <= p.delay <= 0xFFFF_FFFE && p.width >= 1 && n <= |others| && NoLateEvent(p, others)
    ensures Trigger(Run(p, others, n), p) != p.inverted <==> p.delay + 2 <= n < p.delay + 2 + p.width + 1
    ensures n >= p.delay + p.width + 4 ==> Run(p, others, n) == QUIET
  {
    RunStands(p, others, n);
  }

  /** An event on the very clock that ends the delay keeps the counter running past it. */
  lemma LateEventRunsOn(p: Params)
    requires 1 <= p.delay <= MAX_DELAY
    ensures Next(Regs(p.delay, 0, true, false), false, p, p.event) == Regs(p.delay + 1, 0, true, false)
  {
  }

  /** With the delay at 2^32 - 1 the counter wraps before it can pass it, and no pulse comes. */
  lemma {:induction false} LargestDelayGivesNoPulse(p: Params, others: seq<Word8>, n: nat)
    requires p.delay == 0xFFFF_FFFF && p.width >= 1 && n <= |others| && NoEvent(p, others)
    ensures Trigger(Run(p, others, n), p) == p.inverted
    ensures Run(p, others, n) == if n <= p.delay then Regs(n, 0, true, false) else QUIET
  {
    if n > 0 {
      LargestDelayGivesNoPulse(p, others, n - 1);
    }
  }

  /** Reset leaves the channel quiet from any state and whatever event comes. */
  lemma ResetQuiets(r: Regs, p: Params, event: Word8)
    ensures Next(r, true, p, event) == QUIET && QUIET == Regs(0, 0, false, false)
  {
  }

  /** A zero delay or width keeps the output low, with either polarity and in every state. */
  lemma ZeroKeepsLow(r: Regs, p: Params)
    requires p.delay == 0 || p.width == 0
    ensures !Trigger(r, p)
  {
  }
}
