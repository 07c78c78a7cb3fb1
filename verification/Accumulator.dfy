/** The sliding-window charge accumulator: a ring of past samples and a running sum. */
module Accumulator {
  import opened Words

  /** Depth of the dual-port RAM that holds the past samples. */
  const DEPTH := 8191

  datatype Phase = Idle | CalcAccum | Wait1 | UpdateDpram | UpdatePtrs

  datatype Regs = Regs(
    phase: Phase, prevWindow: bool, trig: bool, newSample: Word32, bufFull: bool, bufCnt: Word13,
    wrAddr: Word13, rdAddr: Word13, wrEn: bool, accum: Word32, endSample: Word32)

  datatype State = State(regs: Regs, ram: seq<Word32>)

  datatype Input = Input(rst: bool, accumLen: Word13, window: bool, qMin: Word32, sample: Word32)

  function RamRead(ram: seq<Word32>, addr: Word13): Word32 {
    if addr < |ram| then ram[addr] else 0
  }

  /** Port A stores the sample while the write enable is up. */
  function NextRam(ram: seq<Word32>, r: Regs): seq<Word32> {
    if r.wrEn && r.wrAddr < |ram| then ram[r.wrAddr := r.newSample] else ram
  }

  /** An update starts on this edge. */
  predicate Accepts(r: Regs, i: Input) { !i.rst && r.phase.Idle? && r.trig }

  function NextPhase(r: Regs): Phase {
    match r.phase
    case Idle => if r.trig then CalcAccum else Idle
    case CalcAccum => Wait1
    case Wait1 => UpdateDpram
    case UpdateDpram => UpdatePtrs
    case UpdatePtrs => Idle
  }

  /** One clock edge, register by register; readOut is the RAM word at the read address. */
  function NextRegs(r: Regs, i: Input, readOut: Word32): Regs {
    var advance := r.phase.UpdatePtrs?;
    Regs(
      phase := if i.rst then Idle else NextPhase(r),
      prevWindow := i.window,
      trig := r.prevWindow && !i.window,
      newSample := if i.rst then 0 else if Accepts(r, i) then Max(i.sample, i.qMin) else r.newSample,
      bufFull := !i.rst && (r.bufFull || (Accepts(r, i) && r.bufCnt >= i.accumLen)),
      bufCnt := if i.rst then 0
                else if Accepts(r, i) && r.bufCnt < i.accumLen then Wrap13(r.bufCnt + 1)
                else r.bufCnt,
      wrAddr := if i.rst then 0 else if advance then r.rdAddr else r.wrAddr,
      rdAddr := if i.rst then 1
                else if !advance then r.rdAddr
                else if r.rdAddr == i.accumLen then 0 else Wrap13(r.rdAddr + 1),
      wrEn := !i.rst && (r.phase.UpdateDpram? || (r.wrEn && !advance)),
      accum := if i.rst then 0
               else if !r.phase.CalcAccum? then r.accum
               else Wrap32(r.accum + r.newSample - (if r.bufFull then r.endSample else 0)),
      endSample := if i.rst then 0 else readOut)
  }

  function Next(s: State, i: Input): State {
    State(NextRegs(s.regs, i, RamRead(s.ram, s.regs.rdAddr)), NextRam(s.ram, s.regs))
  }

  class Entity {
    var regs: Regs
    const ram: array<Word32>

    ghost function View(): State
      reads this, ram
    {
      State(regs, ram[..])
    }

    constructor ()
      ensures fresh(ram) && |View().ram| == DEPTH
      ensures regs.phase == Idle && !regs.prevWindow
    {
      regs := Regs(Idle, false, false, 0, false, 0, 0, 0, false, 0, 0);
      ram := new Word32[DEPTH](_ => 0);
    }

    /** The trigger process, the RAM ports and the update state machine on one rising edge. */
    method Clock(i: Input)
      modifies this, ram
      ensures View() == Next(old(View()), i)
    {
      var readOut := if regs.rdAddr < ram.Length then ram[regs.rdAddr] else 0;
      if regs.wrEn && regs.wrAddr < ram.Length {
        ram[regs.wrAddr] := regs.newSample;
      }
      regs := UpdateMachine(regs, i, readOut);
    }

    /** The branches of the clocked processes; `was` holds every signal as it was before the edge. */
    static method UpdateMachine(was: Regs, i: Input, readOut: Word32) returns (r: Regs)
      ensures r == NextRegs(was, i, readOut)
    {
      r := was.(prevWindow := i.window, trig := was.prevWindow && !i.window);
      if i.rst {
        r := r.(phase := Idle, newSample := 0, bufFull := false, bufCnt := 0);
        r := r.(wrAddr := 0, rdAddr := 1, wrEn := false, accum := 0, endSample := 0);
        return;
      }
      r := r.(endSample := readOut);
      match was.phase {
        case Idle =>
          if was.trig {
            r := r.(phase := CalcAccum, newSample := if i.sample > i.qMin then i.sample else i.qMin);
            if was.bufCnt >= i.accumLen {
              r := r.(bufFull := true);
            } else {
              r := r.(bufCnt := Wrap13(was.bufCnt + 1));
            }
          }
        case CalcAccum =>
          r := r.(phase := Wait1);
          if !was.bufFull {
            r := r.(accum := Wrap32(was.accum + was.newSample));
          } else {
            r := r.(accum := Wrap32(was.accum + was.newSample - was.endSample));
          }
        case Wait1 =>
          r := r.(phase := UpdateDpram);
        case UpdateDpram =>
          r := r.(phase := UpdatePtrs, wrEn := true);
        case UpdatePtrs =>
          r := r.(phase := Idle, wrEn := false, wrAddr := was.rdAddr);
          if was.rdAddr == i.accumLen {
            r := r.(rdAddr := 0);
          } else {
            r := r.(rdAddr := Wrap13(was.rdAddr + 1));
          }
      }
    }
  }

  // ----- runs and the samples they take -----

  /** The state after the first k clocks of a run. */
  function Run(s: State, ins: seq<Input>, k: nat): State
    requires k <= |ins|
  {
    if k == 0 then s else Next(Run(s, ins, k - 1), ins[k - 1])
  }

  /** The samples taken since the last reset, after one more clock. */
  function Take(taken: seq<int>, r: Regs, i: Input): seq<int> {
    if i.rst then []
    else if Accepts(r, i) then taken + [Max(i.sample, i.qMin)]
    else taken
  }

  function Taken(s: State, ins: seq<Input>, k: nat): seq<int>
    requires k <= |ins|
  {
    if k == 0 then [] else Take(Taken(s, ins, k - 1), Run(s, ins, k - 1).regs, ins[k - 1])
  }

  // ----- the ring invariant -----

  /** The next address after wr on the ring of addresses 0..L. */
  function Succ(wr: int, L: int): int { if wr == L then 0 else wr + 1 }

  /** The ring address a steps behind wr. */
  function Behind(wr: int, a: int, L: int): int { if wr >= a then wr - a else wr + L + 1 - a }

  /** Walking back from the write address, the RAM holds the newest L + 1 stored samples. */
  ghost predicate Ring(ram: seq<Word32>, wr: int, L: int, stored: seq<int>)
    requires 0 <= wr <= L < |ram|
  {
    forall a {:trigger Behind(wr, a, L)} :: 1 <= a <= Min(|stored|, L + 1) ==>
      ram[Behind(wr, a, L)] == stored[|stored| - a]
  }

  lemma RingStore(ram: seq<Word32>, wr: int, L: int, stored: seq<int>, x: Word32)
    requires 0 <= wr <= L < |ram| && Ring(ram, wr, L, stored)
    ensures Ring(ram[wr := x], Succ(wr, L), L, stored + [x])
  {
    var next := Succ(wr, L);
    forall a {:trigger Behind(next, a, L)} | 1 <= a <= Min(|stored| + 1, L + 1)
      ensures ram[wr := x][Behind(next, a, L)] == (stored + [x])[|stored| + 1 - a]
    {
      if a > 1 {
        assert Behind(next, a, L) == Behind(wr, a - 1, L) != wr;
      }
    }
  }

  /** The history without the sample whose update is under way. */
  function Stored(r: Regs, h: seq<int>): seq<int> {
    if r.phase.Idle? || h == [] then h else h[..|h| - 1]
  }

  /** The part of the history that the running sum already covers. */
  function Summed(r: Regs, h: seq<int>): seq<int> {
    if r.phase.CalcAccum? && h != [] then h[..|h| - 1] else h
  }

  predicate Counts(r: Regs, L: nat, n: nat) {
    && 1 <= L < DEPTH
    && r.wrAddr <= L && r.rdAddr == Succ(r.wrAddr, L)
    && r.bufCnt == Min(n, L) && r.bufFull == (n > L)
    && r.wrEn == r.phase.UpdatePtrs?
  }

  /** The registers hold exactly what a window of L over the history h calls for. */
  ghost predicate Tracks(s: State, L: nat, h: seq<int>) {
    var r := s.regs;
    && Counts(r, L, |h|)
    && |s.ram| == DEPTH
    && (!r.phase.Idle? ==> h != [] && r.newSample == h[|h| - 1])
    && (r.phase.CalcAccum? && r.bufFull ==> r.endSample == h[|h| - 1 - L])
    && Ring(s.ram, r.wrAddr, L, Stored(r, h))
    && r.accum == Wrap32(Sum(LastOf(Summed(r, h), L)))
  }

  /** Adding the newcomer and subtracting the oldest sample slides the 32-bit window sum. */
  lemma SumSlides(h: seq<int>, L: nat, accum: Word32, oldest: int)
    requires h != [] && L >= 1 && accum == Wrap32(Sum(LastOf(h[..|h| - 1], L)))
    requires oldest == if |h| > L then h[|h| - 1 - L] else 0
    ensures Wrap32(accum + h[|h| - 1] - oldest) == Wrap32(Sum(LastOf(h, L)))
  {
    hide Sum, LastOf, Wrap32;
    var before := h[..|h| - 1];
    assert before + [h[|h| - 1]] == h;
    WindowSlides(before, h[|h| - 1], L);
    WrapAdd(Sum(LastOf(before, L)), h[|h| - 1] - oldest);
  }

  lemma ResetTracks(s: State, i: Input, L: nat)
    requires |s.ram| == DEPTH && 1 <= L < DEPTH && i.rst
    ensures Tracks(Next(s, i), L, [])
  {
  }

  lemma StepIdle(s: State, i: Input, L: nat, h: seq<int>)
    requires s.regs.phase.Idle? && Tracks(s, L, h) && i.accumLen == L && !i.rst
    ensures Tracks(Next(s, i), L, Take(h, s.regs, i))
  {
    hide Sum, LastOf, Wrap32;
    var r, q := s.regs, Next(s, i).regs;
    if r.trig {
      var h' := h + [q.newSample];
      assert h'[..|h|] == h;
      assert q.bufFull ==> r.rdAddr == Behind(r.wrAddr, L, L);
    }
  }

  lemma StepCalc(s: State, i: Input, L: nat, h: seq<int>)
    requires s.regs.phase.CalcAccum? && Tracks(s, L, h) && i.accumLen == L && !i.rst
    ensures Tracks(Next(s, i), L, h)
  {
    SumSlides(h, L, s.regs.accum, if s.regs.bufFull then s.regs.endSample else 0);
    hide Sum, LastOf, Ring, Wrap32;
    var n := Next(s, i);
    assert n.ram == s.ram && Stored(n.regs, h) == Stored(s.regs, h);
    assert Summed(n.regs, h) == h && n.regs.wrAddr == s.regs.wrAddr;
  }

  lemma StepStore(s: State, i: Input, L: nat, h: seq<int>)
    requires s.regs.phase.UpdatePtrs? && Tracks(s, L, h) && i.accumLen == L && !i.rst
    ensures Tracks(Next(s, i), L, h)
  {
    hide Sum, LastOf, Wrap32, Ring;
    RingStore(s.ram, s.regs.wrAddr, L, Stored(s.regs, h), s.regs.newSample);
    assert Stored(s.regs, h) + [s.regs.newSample] == h;
  }

  lemma StepWait(s: State, i: Input, L: nat, h: seq<int>)
    requires s.regs.phase.Wait1? || s.regs.phase.UpdateDpram?
    requires Tracks(s, L, h) && i.accumLen == L && !i.rst
    ensures Tracks(Next(s, i), L, h)
  {
    hide Sum, LastOf, Wrap32, Ring;
  }

  /** One clock keeps the ring, the pointers and the running sum in step with the history. */
  lemma StepTracks(s: State, i: Input, L: nat, h: seq<int>)
    requires Tracks(s, L, h) && i.accumLen == L && !i.rst
    ensures Tracks(Next(s, i), L, Take(h, s.regs, i))
  {
    hide Tracks, Next;
    match s.regs.phase
    case Idle => StepIdle(s, i, L, h);
    case CalcAccum => StepCalc(s, i, L, h);
    case UpdatePtrs => StepStore(s, i, L, h);
    case _ => StepWait(s, i, L, h);
  }

  lemma {:induction false} RunTracks(s: State, ins: seq<Input>, k: nat, L: nat)
    requires |s.ram| == DEPTH && 1 <= L < DEPTH && 1 <= k <= |ins|
    requires ins[0].rst && forall j :: 0 <= j < k ==> ins[j].accumLen == L
    ensures Tracks(Run(s, ins, k), L, Taken(s, ins, k))
  {
    if k == 1 {
      ResetTracks(s, ins[0], L);
    } else {
      RunTracks(s, ins, k - 1, L);
      var q, h := Run(s, ins, k - 1), Taken(s, ins, k - 1);
      if ins[k - 1].rst {
        ResetTracks(q, ins[k - 1], L);
      } else {
        StepTracks(q, ins[k - 1], L, h);
      }
      hide Tracks, Next;
    }
  }

  /**
   * The window law: from any RAM contents and any state, after k clocks of any run that starts with a
   * reset and keeps a length L the ring can hold, the output is the 32-bit sum of the newest L samples
   * taken (without the one whose addition is under way).
   */
  lemma {:induction false} WindowLaw(s: State, ins: seq<Input>, k: nat, L: nat)
    requires |s.ram| == 8191 && 1 <= L <= 8190 && 1 <= k <= |ins|
    requires ins[0].rst && forall j :: 0 <= j < k ==> ins[j].accumLen == L
    ensures var q, h := Run(s, ins, k).regs, Taken(s, ins, k);
            q.accum == Wrap32(Sum(LastOf(if q.phase.CalcAccum? then h[..|h| - 1] else h, L)))
  {
    RunTracks(s, ins, k, L);
  }

  /** With L samples of the largest value M below 2^32 nothing wraps: the output is the sum itself. */
  lemma {:induction false} WindowExact(s: State, L: nat, h: seq<int>, M: nat)
    requires Tracks(s, L, h)
    requires (forall k :: 0 <= k < |h| ==> 0 <= h[k] <= M) && L * M < 0x1_0000_0000
    ensures s.regs.accum == Sum(LastOf(Summed(s.regs, h), L))
  {
    ShortSum(LastOf(Summed(s.regs, h), L), L, M);
  }

  /** Under the same bound the update in flight neither borrows nor overflows. */
  lemma UpdateNeverBorrows(s: State, L: nat, h: seq<int>, M: nat)
    requires Tracks(s, L, h) && s.regs.phase.CalcAccum?
    requires (forall k :: 0 <= k < |h| ==> 0 <= h[k] <= M) && L * M < 0x1_0000_0000
    ensures s.regs.bufFull ==> s.regs.accum >= s.regs.endSample
    ensures var r := s.regs;
            r.accum + r.newSample - (if r.bufFull then r.endSample else 0) == Sum(LastOf(h, L))
    ensures 0 <= Sum(LastOf(h, L)) < 0x1_0000_0000
  {
    hide Sum, Ring, Wrap32;
    var before, newest := h[..|h| - 1], h[|h| - 1];
    assert before + [newest] == h;
    WindowExact(s, L, h, M);
    assert Summed(s.regs, h) == before;
    WindowSlides(before, newest, L);
    ShortSum(LastOf(h, L), L, M);
    if s.regs.bufFull {
      OldestFits(before, L, M);
    }
    hide LastOf;
  }

  /** A full window sums to no less than its oldest entry. */
  lemma OldestFits(h: seq<int>, L: nat, M: nat)
    requires 1 <= L <= |h| && (forall k :: 0 <= k < |h| ==> 0 <= h[k] <= M) && L * M < 0x1_0000_0000
    ensures Sum(LastOf(h, L)) >= h[|h| - L]
  {
    hide Sum;
    LastOfHead(h, L);
    SumDropFirst(LastOf(h, L));
    ShortSum(LastOf(h, L)[1..], L, M);
  }

  lemma ShortSum(s: seq<int>, L: nat, M: nat)
    requires |s| <= L && (forall k :: 0 <= k < |s| ==> 0 <= s[k] <= M) && L * M < 0x1_0000_0000
    ensures 0 <= Sum(s) < 0x1_0000_0000
  {
    SumBounds(s, 0, M);
    calc { |s| * M; <= { MulMono(|s|, L, M); } L * M; }
  }

  lemma MulMono(a: nat, b: nat, m: nat)
    requires a <= b
    ensures a * m <= b * m
  {
  }

  /** A length of 0 gives no window: the first update leaves a non-empty sum. */
  lemma ZeroLengthIsNoWindow(s: State, x: Word32)
    requires s.regs.phase.Idle? && s.regs.trig && !s.regs.bufFull && s.regs.bufCnt == 0
    requires s.regs.accum == 0 && s.regs.rdAddr == 1 && |s.ram| == DEPTH && s.ram[1] == 0 && x > 0
    requires !s.regs.wrEn
    ensures var i := Input(false, 0, false, 0, x);
            Run(s, [i, i], 2).regs.accum == x != Wrap32(Sum(LastOf(Taken(s, [i, i], 2), 0)))
  {
    var i := Input(false, 0, false, 0, x);
    assert Run(s, [i, i], 1) == Next(s, i);
    assert LastOf(Taken(s, [i, i], 2), 0) == [];
  }

  /** What one clock in reset leaves of any state; the edge detector alone runs on. */
  lemma ResetLeaves(s: State, i: Input)
    requires i.rst
    ensures Next(s, i).regs == Regs(Idle, i.window, s.regs.prevWindow && !i.window, 0, false, 0, 0, 1, false, 0, 0)
  {
  }

  /** The trigger is up exactly two clocks after the window was seen up with it down on the next, reset or not. */
  lemma TrigIsFall(s: State, ins: seq<Input>, k: nat)
    requires 2 <= k <= |ins|
    ensures Run(s, ins, k).regs.trig <==> ins[k - 2].window && !ins[k - 1].window
  {
    hide RamRead, NextRam, NextPhase;
    assert Run(s, ins, k - 1) == Next(Run(s, ins, k - 2), ins[k - 2]);
  }
}
