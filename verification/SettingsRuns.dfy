/**
 * Settings messages from several clients. Each is handled on its client's own thread, without a lock:
 * the register write, the reading of each of the 50 registers and the page write are steps of their own,
 * and those of different handlers interleave in any way.
 */
module SettingsRuns {
  import opened Words
  import opened EepromMirror

  /** The board, and for every handler inside a message the fields it has read so far. */
  datatype State = State(board: Board, busy: map<nat, seq<Word32>>)

  datatype Step =
    | Put(h: nat, addr: Word32, data: Word32)
    | Fetch(h: nat)
    | Flush(h: nat, ok: bool)
    | PowerCycle(regs: Registers)
    | BootUp(ok: bool, record: seq<Byte>)

  /** A handler takes its messages one by one; start-up comes before any handler exists. */
  predicate Enabled(s: State, step: Step) {
    match step
    case Put(h, addr, _) => h !in s.busy && Accepted(addr)
    case Fetch(h) => h in s.busy && |s.busy[h]| < NUM_REGS
    case Flush(h, _) => h in s.busy && |s.busy[h]| == NUM_REGS
    case PowerCycle(_) => true
    case BootUp(_, record) => s.busy == map[] && |record| == PAGE_SIZE
  }

  function Written(b: Board, addr: Word32, data: Word32): Board { b.(regs := b.regs[PARAMS_BASE + addr := data]) }

  function Saved(b: Board, record: Record, ok: bool): Board {
    if ok then b.(cells := Page(record) + b.cells[PAGE_SIZE..]) else b
  }

  /** A step that is not enabled does not happen. A power cycle ends all handlers. */
  function Next(s: State, step: Step): State {
    if !Enabled(s, step) then
      s
    else
      match step
      case Put(h, addr, data) => State(Written(s.board, addr, data), s.busy[h := []])
      case Fetch(h) => s.(busy := s.busy[h := s.busy[h] + [Param(s.board.regs, |s.busy[h]|)]])
      case Flush(h, ok) => State(Saved(s.board, s.busy[h], ok), s.busy - {h})
      case PowerCycle(regs) => State(s.board.(regs := regs), map[])
      case BootUp(ok, record) => s.(board := Boot(s.board, ok, record))
  }

  /** The state after the first n steps. */
  function Run(s: State, steps: seq<Step>, n: nat): State
    requires n <= |steps|
  {
    if n == 0 then s else Next(Run(s, steps, n - 1), steps[n - 1])
  }

  predicate Happens(s: State, steps: seq<Step>, n: nat)
    requires n < |steps|
  {
    Enabled(Run(s, steps, n), steps[n])
  }

  // ----- what was read, and what was written since -----

  predicate Fetches(s: State, steps: seq<Step>, h: nat, i: nat, n: nat)
    requires n < |steps|
  {
    Happens(s, steps, n) && steps[n] == Fetch(h) && |Run(s, steps, n).busy[h]| == i
  }

  /** The newest of the first n steps in which handler h reads field i. */
  function FetchedAt(s: State, steps: seq<Step>, h: nat, i: nat, n: nat): (j: nat)
    requires n <= |steps|
    ensures j <= n
  {
    if n == 0 then 0 else if Fetches(s, steps, h, i, n - 1) then n - 1 else FetchedAt(s, steps, h, i, n - 1)
  }

  predicate Puts(s: State, steps: seq<Step>, i: nat, n: nat)
    requires n < |steps|
  {
    Happens(s, steps, n) && steps[n].Put? && steps[n].addr == 4 * i
  }

  /** The newest of the steps j..n-1 in which a message writes register i, or -1. */
  function LastPut(s: State, steps: seq<Step>, i: nat, j: nat, n: nat): (k: int)
    requires n <= |steps|
    ensures -1 <= k < n && (k >= 0 ==> j <= k && Puts(s, steps, i, k))
    ensures forall m :: j <= m < n && k < m ==> !Puts(s, steps, i, m)
  {
    if n <= j then -1 else if Puts(s, steps, i, n - 1) then n - 1 else LastPut(s, steps, i, j, n - 1)
  }

  /** After handler h read field i, and before step n, a message has left another value in the register. */
  predicate Overwritten(s: State, steps: seq<Step>, h: nat, i: nat, n: nat)
    requires n <= |steps| && i < NUM_REGS
  {
    var j := FetchedAt(s, steps, h, i, n);
    var k := LastPut(s, steps, i, j, n);
    k >= 0 && steps[k].data != Param(Run(s, steps, j).board.regs, i)
  }

  lemma WrittenParam(b: Board, addr: Word32, data: Word32, i: nat)
    requires Accepted(addr) && i < NUM_REGS
    ensures Param(Written(b, addr, data).regs, i) == if addr == 4 * i then data else Param(b.regs, i)
  {
    hide FieldReg;
    FieldsAreTheBlock(i);
  }

  /** One step while handler h stays inside its message: its fields so far and the register they came from. */
  lemma StepBusy(s: State, step: Step, h: nat, i: nat)
    requires i < NUM_REGS && h in Next(s, step).busy && i < |Next(s, step).busy[h]|
    requires !(Enabled(s, step) && step == Fetch(h) && |s.busy[h]| == i)
    ensures h in s.busy && i < |s.busy[h]| && Next(s, step).busy[h][i] == s.busy[h][i]
    ensures Param(Next(s, step).board.regs, i) ==
            if Enabled(s, step) && step.Put? && step.addr == 4 * i then step.data else Param(s.board.regs, i)
    ensures Enabled(s, step) && step.Put? ==> step.h != h
  {
    hide Param, Boot, Page;
    if Enabled(s, step) && step.Put? {
      WrittenParam(s.board, step.addr, step.data, i);
    }
  }

  /**
   * A handler's record holds each register as it was when that field was read. Since then the register
   * has been changed only by messages of other handlers, the newest of which it now shows.
   */
  lemma {:induction false} FetchedHolds(s: State, steps: seq<Step>, h: nat, i: nat, n: nat)
    requires s.busy == map[] && n <= |steps| && i < NUM_REGS
    requires h in Run(s, steps, n).busy && i < |Run(s, steps, n).busy[h]|
    ensures var j := FetchedAt(s, steps, h, i, n);
            var k := LastPut(s, steps, i, j, n);
            && Run(s, steps, n).busy[h][i] == Param(Run(s, steps, j).board.regs, i)
            && Param(Run(s, steps, n).board.regs, i) ==
               (if k < 0 then Param(Run(s, steps, j).board.regs, i) else steps[k].data)
            && (k >= 0 ==> steps[k].h != h && h in Run(s, steps, k).busy)
  {
    hide Next, Param, Enabled;
    if n > 0 {
      var q := Run(s, steps, n - 1);
      if Fetches(s, steps, h, i, n - 1) {
        FetchReads(q, h);
      } else {
        StepBusy(q, steps[n - 1], h, i);
        FetchedHolds(s, steps, h, i, n - 1);
      }
    }
  }

  lemma FetchReads(s: State, h: nat)
    requires Enabled(s, Fetch(h))
    ensures var t := Next(s, Fetch(h));
            && h in t.busy && t.busy[h] == s.busy[h] + [Param(s.board.regs, |s.busy[h]|)]
            && t.board == s.board
  {
  }

  // ----- when a page write leaves a true record -----

  lemma FlushWrites(s: State, h: nat, i: nat)
    requires Enabled(s, Flush(h, true)) && i < NUM_REGS
    ensures Field(Next(s, Flush(h, true)).board.cells, i) == s.busy[h][i]
    ensures Next(s, Flush(h, true)).board.regs == s.board.regs
  {
    hide Page, Field;
    PageField(s.busy[h], s.board.cells[PAGE_SIZE..], i);
  }

  /** After a page write that succeeds, a field is true exactly when its register was not overwritten. */
  lemma {:induction false} FieldTrueIff(s: State, steps: seq<Step>, h: nat, i: nat, n: nat)
    requires s.busy == map[] && n < |steps| && Happens(s, steps, n) && steps[n] == Flush(h, true) && i < NUM_REGS
    ensures var after := Run(s, steps, n + 1).board;
            && Field(after.cells, i) == Param(Run(s, steps, FetchedAt(s, steps, h, i, n)).board.regs, i)
            && (Field(after.cells, i) == Param(after.regs, i) <==> !Overwritten(s, steps, h, i, n))
  {
    hide Next, Param, Field;
    InMessage(Run(s, steps, n), h);
    FlushWrites(Run(s, steps, n), h, i);
    FetchedHolds(s, steps, h, i, n);
  }

  lemma InMessage(s: State, h: nat)
    requires Enabled(s, Flush(h, true))
    ensures h in s.busy && |s.busy[h]| == NUM_REGS
  {
  }

  /**
   * After every page write that succeeds, under every interleaving, the record encodes exactly the
   * parameter registers if and only if, for each register, the newest message to write it since this
   * writer read it, if any, left the value that was read.
   */
  lemma {:induction false} SavedIffNotOverwritten(s: State, steps: seq<Step>, h: nat, n: nat)
    requires s.busy == map[] && n < |steps| && Happens(s, steps, n) && steps[n] == Flush(h, true)
    ensures var after := Run(s, steps, n + 1).board;
            Encodes(after.cells, after.regs) <==> forall i :: 0 <= i < NUM_REGS ==> !Overwritten(s, steps, h, i, n)
  {
    hide Overwritten, Field, Param, Next, Happens;
    var after := Run(s, steps, n + 1).board;
    forall i | 0 <= i < NUM_REGS
      ensures Field(after.cells, i) == Param(after.regs, i) <==> !Overwritten(s, steps, h, i, n)
    {
      FieldTrueIff(s, steps, h, i, n);
    }
    hide Run;
  }

  /** Messages are handled one at a time. */
  predicate Serial(s: State, steps: seq<Step>) {
    forall m :: 0 <= m < |steps| && steps[m].Put? && Happens(s, steps, m) ==> Run(s, steps, m).busy == map[]
  }

  /** So with messages handled one at a time every page write that succeeds leaves a true record. */
  lemma {:induction false} SerialSavesAreTrue(s: State, steps: seq<Step>, h: nat, n: nat)
    requires s.busy == map[] && Serial(s, steps)
    requires n < |steps| && Happens(s, steps, n) && steps[n] == Flush(h, true)
    ensures Encodes(Run(s, steps, n + 1).board.cells, Run(s, steps, n + 1).board.regs)
  {
    hide Encodes, Param, Next;
    SavedIffNotOverwritten(s, steps, h, n);
    forall i | 0 <= i < NUM_REGS
      ensures !Overwritten(s, steps, h, i, n)
    {
      FetchedHolds(s, steps, h, i, n);
    }
  }

  // ----- a message that nothing disturbs -----

  /** k steps in a row in which handler h reads its next field. */
  lemma {:induction false} ReadsInARow(s: State, steps: seq<Step>, a: nat, h: nat, k: nat)
    requires a + k <= |steps| && k <= NUM_REGS
    requires h in Run(s, steps, a).busy && Run(s, steps, a).busy[h] == []
    requires forall m :: a <= m < a + k ==> steps[m] == Fetch(h)
    ensures var q := Run(s, steps, a);
            Run(s, steps, a + k) == q.(busy := q.busy[h := Params(q.board.regs, k)])
    ensures forall m :: a <= m < a + k ==> Happens(s, steps, m)
  {
    hide Param;
    var q := Run(s, steps, a);
    if k == 0 {
      assert Params(q.board.regs, 0) == [];
    } else {
      ReadsInARow(s, steps, a, h, k - 1);
      hide Run;
      assert Params(q.board.regs, k) == Params(q.board.regs, k - 1) + [Param(q.board.regs, k - 1)];
      assert Happens(s, steps, a + k - 1);
    }
  }

  /** A register write and 50 reads in a row. */
  lemma {:induction false} GathersInARow(s: State, steps: seq<Step>, a: nat, h: nat, addr: Word32, data: Word32)
    requires a + 1 + NUM_REGS <= |steps| && Accepted(addr) && h !in Run(s, steps, a).busy
    requires steps[a] == Put(h, addr, data) && forall m :: a + 1 <= m < a + 1 + NUM_REGS ==> steps[m] == Fetch(h)
    ensures var q := Run(s, steps, a);
            var b := Written(q.board, addr, data);
            Run(s, steps, a + 1 + NUM_REGS) == State(b, q.busy[h := Params(b.regs, NUM_REGS)])
    ensures forall m :: a <= m < a + 1 + NUM_REGS ==> Happens(s, steps, m)
  {
    hide Param, Written;
    var q := Run(s, steps, a);
    assert Happens(s, steps, a) && Run(s, steps, a + 1) == Next(q, steps[a]);
    ReadsInARow(s, steps, a + 1, h, NUM_REGS);
  }

  /** The steps of one message with nothing between them do what the message does as a whole. */
  lemma {:induction false} UndisturbedIsSetting(
      s: State, steps: seq<Step>, a: nat, h: nat, addr: Word32, data: Word32, ok: bool)
    requires a + 2 + NUM_REGS <= |steps| && Accepted(addr) && h !in Run(s, steps, a).busy
    requires steps[a] == Put(h, addr, data) && steps[a + 1 + NUM_REGS] == Flush(h, ok)
    requires forall m :: a + 1 <= m < a + 1 + NUM_REGS ==> steps[m] == Fetch(h)
    ensures Run(s, steps, a + 2 + NUM_REGS) ==
            Run(s, steps, a).(board := Setting(Run(s, steps, a).board, addr, data, ok))
  {
    hide Param, Page;
    var q := Run(s, steps, a);
    GathersInARow(s, steps, a, h, addr, data);
    var r := Run(s, steps, a + 1 + NUM_REGS);
    assert Run(s, steps, a + 2 + NUM_REGS) == Next(r, steps[a + 1 + NUM_REGS]);
    hide Run;
    assert q.busy[h := Params(r.board.regs, NUM_REGS)] - {h} == q.busy;
  }

  // ----- two messages that overlap -----

  /** Handler 0 writes register i and reads all; handler 1 does its whole message on j; handler 0 writes its page. */
  function Overlap(i: nat, a: Word32, j: nat, b: Word32): (steps: seq<Step>)
    requires i < NUM_REGS && j < NUM_REGS
    ensures |steps| == 104
  {
    [Put(0, 4 * i, a)] + seq(NUM_REGS, _ => Fetch(0)) + [Put(1, 4 * j, b)] + seq(NUM_REGS, _ => Fetch(1))
    + [Flush(1, true), Flush(0, true)]
  }

  lemma OverlapShape(i: nat, a: Word32, j: nat, b: Word32)
    requires i < NUM_REGS && j < NUM_REGS
    ensures var steps := Overlap(i, a, j, b);
            && steps[0] == Put(0, 4 * i, a) && steps[51] == Put(1, 4 * j, b)
            && steps[102] == Flush(1, true) && steps[103] == Flush(0, true)
            && (forall n :: 1 <= n < 51 ==> steps[n] == Fetch(0))
            && (forall n :: 52 <= n < 102 ==> steps[n] == Fetch(1))
  {
  }

  /** Where the overlap stands before the two page writes. */
  lemma {:induction false} OverlapReads(s: State, i: nat, a: Word32, j: nat, b: Word32)
    requires s.busy == map[] && i < NUM_REGS && j < NUM_REGS
    ensures var steps, first := Overlap(i, a, j, b), Written(s.board, 4 * i, a);
            var second := Written(first, 4 * j, b);
            && (forall n :: 0 <= n < 102 ==> Happens(s, steps, n))
            && Run(s, steps, 102) == State(second, map[0 := Params(first.regs, NUM_REGS), 1 := Params(second.regs, NUM_REGS)])
  {
    hide Param, Written, Next, Overlap;
    var steps := Overlap(i, a, j, b);
    OverlapShape(i, a, j, b);
    GathersInARow(s, steps, 0, 0, 4 * i, a);
    GathersInARow(s, steps, 51, 1, 4 * j, b);
  }

  /** Both page writes succeed, and the record lacks the second message's value. */
  lemma {:induction false} OverlapLoses(s: State, i: nat, a: Word32, j: nat, b: Word32)
    requires s.busy == map[] && i < NUM_REGS && j < NUM_REGS && i != j && b != Param(s.board.regs, j)
    ensures var steps := Overlap(i, a, j, b);
            && (forall n :: 0 <= n < 104 ==> Happens(s, steps, n))
            && !Encodes(Run(s, steps, 104).board.cells, Run(s, steps, 104).board.regs)
  {
    hide Param, Field;
    var steps, first := Overlap(i, a, j, b), Written(s.board, 4 * i, a);
    OverlapReads(s, i, a, j, b);
    WrittenParam(s.board, 4 * i, a, j);
    WrittenParam(first, 4 * j, b, j);
    var ready := Run(s, steps, 102);
    hide Written, Overlap, Page;
    OverlapShape(i, a, j, b);
    assert Run(s, steps, 103) == Next(ready, Flush(1, true)) && Happens(s, steps, 102);
    assert Run(s, steps, 104) == Next(Run(s, steps, 103), Flush(0, true)) && Happens(s, steps, 103);
    hide Run;
    FlushWrites(Run(s, steps, 103), 0, j);
  }

  // ----- start-up -----

  /** A page write that succeeds. */
  predicate Saves(s: State, steps: seq<Step>, n: nat)
    requires n < |steps|
  {
    Happens(s, steps, n) && steps[n].Flush? && steps[n].ok
  }

  /** The record stays as last saved through everything but a page write that succeeds. */
  lemma {:induction false} RecordKept(s: State, steps: seq<Step>, j: nat, k: nat)
    requires j <= k <= |steps| && forall m :: j <= m < k ==> !Saves(s, steps, m)
    ensures Run(s, steps, k).board.cells == Run(s, steps, j).board.cells
  {
    hide Page, Loaded, Param;
    if j < k {
      RecordKept(s, steps, j, k - 1);
      assert !Saves(s, steps, k - 1);
    }
  }

  /** A good start-up gives every parameter register the value that the last successful writer had read. */
  lemma {:induction false} BootRestoresLastSave(s: State, steps: seq<Step>, j: nat, k: nat, i: nat)
    requires s.busy == map[] && j < k < |steps| && i < NUM_REGS
    requires Saves(s, steps, j) && forall m :: j < m < k ==> !Saves(s, steps, m)
    requires steps[k].BootUp? && steps[k].ok && Happens(s, steps, k)
    ensures Param(Run(s, steps, k + 1).board.regs, i)
            == Field(Run(s, steps, j + 1).board.cells, i)
            == Param(Run(s, steps, FetchedAt(s, steps, steps[j].h, i, j)).board.regs, i)
  {
    hide Param, Field, Boot, FetchedAt;
    FieldTrueIff(s, steps, steps[j].h, i, j);
    RecordKept(s, steps, j + 1, k);
    BootLoads(Run(s, steps, k).board, true, steps[k].record, i);
  }

  /**
   * A power cycle between any handlers' steps, and a start-up after it: the EEPROM keeps its bytes, the
   * parameter registers come from them, or from anything when the read failed, and every other register
   * is what it powered up as.
   */
  lemma PowerCycleThenBoot(s: State, powered: Registers, ok: bool, record: seq<Byte>, i: nat, offset: nat)
    requires |record| == 252 && i < 50 && (offset < 0x300 || 0x300 + 200 <= offset)
    ensures var off := Next(s, PowerCycle(powered));
            var on := Next(off, BootUp(ok, record));
            var c := if ok then s.board.cells else record;
            && off.board.regs == powered && on.board.cells == s.board.cells && on.busy == map[]
            && Reg(on.board.regs, 0x300 + 4 * i) == c[4 * i] as int + c[4 * i + 1] as int * 0x100
                                                    + c[4 * i + 2] as int * 0x1_0000 + c[4 * i + 3] as int * 0x100_0000
            && Reg(on.board.regs, offset) == Reg(powered, offset)
  {
    BootBytes(s.board.(regs := powered), ok, record, i, offset);
    hide Loaded, Reg;
  }

  predicate SameParams(a: Registers, b: Registers) { forall i :: 0 <= i < NUM_REGS ==> Param(a, i) == Param(b, i) }

  /**
   * So a good start-up restores every parameter register to its value right after the last successful
   * page write exactly when none had been overwritten by then.
   */
  lemma {:induction false} BootRestoresAllIff(s: State, steps: seq<Step>, j: nat, k: nat)
    requires s.busy == map[] && j < k < |steps|
    requires Saves(s, steps, j) && forall m :: j < m < k ==> !Saves(s, steps, m)
    requires steps[k].BootUp? && steps[k].ok && Happens(s, steps, k)
    ensures SameParams(Run(s, steps, k + 1).board.regs, Run(s, steps, j + 1).board.regs)
            <==> forall i :: 0 <= i < NUM_REGS ==> !Overwritten(s, steps, steps[j].h, i, j)
  {
    hide Param, Field, Overwritten, Next, FetchedAt, Happens;
    var later, saved := Run(s, steps, k + 1).board.regs, Run(s, steps, j + 1).board.regs;
    forall i | 0 <= i < NUM_REGS
      ensures Param(later, i) == Param(saved, i) <==> !Overwritten(s, steps, steps[j].h, i, j)
    {
      BootRestoresField(s, steps, j, k, i);
    }
    hide Run;
  }

  lemma {:induction false} BootRestoresField(s: State, steps: seq<Step>, j: nat, k: nat, i: nat)
    requires s.busy == map[] && j < k < |steps| && i < NUM_REGS
    requires Saves(s, steps, j) && forall m :: j < m < k ==> !Saves(s, steps, m)
    requires steps[k].BootUp? && steps[k].ok && Happens(s, steps, k)
    ensures Param(Run(s, steps, k + 1).board.regs, i) == Param(Run(s, steps, j + 1).board.regs, i)
            <==> !Overwritten(s, steps, steps[j].h, i, j)
  {
    hide Param, Field, Overwritten, Next, FetchedAt;
    BootRestoresLastSave(s, steps, j, k, i);
    FieldTrueIff(s, steps, steps[j].h, i, j);
  }
}
