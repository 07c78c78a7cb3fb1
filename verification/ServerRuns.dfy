/**
 * Every interleaving of the accept loop, the client handlers and the sending threads. Each guarded
 * operation is one step; storing a new client's socket is a step of its own, outside the lock.
 */
module ServerRuns {
  import opened Words
  import opened Sockets
  import opened PscMsg
  import opened PscStream
  import opened ClientTable

  /** How far a connection has come: admitted, being served, slot given back, socket closed, turned away. */
  datatype Phase = Reserved | Serving | Freed | Gone | Dropped

  datatype Conn = Conn(slot: nat, phase: Phase)

  /** The table, every connection ever accepted, and the one whose socket is still to be stored (0: none). */
  datatype State = State(table: Table, conns: map<int, Conn>, accepting: int)

  datatype Step =
    | Accept(fd: int)
    | Store
    | SendAllStep(m: Message, outcome: Outcome)
    | SendOneStep(fd: int, m: Message, moved: nat)
    | Free(fd: int)
    | Shut(fd: int)

  function Start(): State {
    State(Table([false, false, false, false], [0, 0, 0, 0], map[], {}), map[], 0)
  }

  predicate InPhase(s: State, fd: int, phase: Phase) { fd in s.conns && s.conns[fd].phase == phase }

  /** The accept loop finishes one connection before the next; a new socket is never an old one. */
  predicate Enabled(s: State, step: Step) {
    match step
    case Accept(fd) => s.accepting == 0 && fd > 0 && fd !in s.conns
    case Store => InPhase(s, s.accepting, Reserved) && s.conns[s.accepting].slot < MAX_CLIENTS
    case SendAllStep(m, outcome) => Fits(m) && Within(outcome, Frame(m))
    case SendOneStep(fd, m, moved) =>
      InPhase(s, fd, Serving) && s.conns[fd].slot < MAX_CLIENTS && Fits(m) && moved <= |Frame(m)|
    case Free(fd) => InPhase(s, fd, Serving) && s.conns[fd].slot < MAX_CLIENTS
    case Shut(fd) => InPhase(s, fd, Freed)
  }

  function Next(s: State, step: Step): State
    requires Enabled(s, step)
  {
    match step
    case Accept(fd) =>
      var slot := FirstFree(s.table.used, 0);
      if slot < MAX_CLIENTS then
        State(Reserve(s.table, slot), s.conns[fd := Conn(slot, Reserved)], fd)
      else
        State(CloseSocket(s.table, fd), s.conns[fd := Conn(slot, Dropped)], 0)
    case Store =>
      var slot := s.conns[s.accepting].slot;
      State(Publish(s.table, slot, s.accepting), s.conns[s.accepting := Conn(slot, Serving)], 0)
    case SendAllStep(m, outcome) =>
      s.(table := Broadcast(s.table, Frame(m), outcome, MAX_CLIENTS))
    case SendOneStep(fd, m, moved) =>
      s.(table := Deliver(s.table, s.conns[fd].slot, Frame(m), moved))
    case Free(fd) =>
      var slot := s.conns[fd].slot;
      s.(table := Release(s.table, slot), conns := s.conns[fd := Conn(slot, Freed)])
    case Shut(fd) =>
      s.(table := CloseSocket(s.table, fd), conns := s.conns[fd := s.conns[fd].(phase := Gone)])
  }

  /** The first n steps can be taken one after the other. */
  predicate Legal(steps: seq<Step>, n: nat)
    requires n <= |steps|
    decreases n, 0
  {
    n == 0 || (Legal(steps, n - 1) && Enabled(Run(steps, n - 1), steps[n - 1]))
  }

  function Run(steps: seq<Step>, n: nat): State
    requires n <= |steps| && Legal(steps, n)
    decreases n, 1
  {
    if n == 0 then Start() else Next(Run(steps, n - 1), steps[n - 1])
  }

  // ----- slots -----

  predicate Owns(s: State, fd: int) { InPhase(s, fd, Reserved) || InPhase(s, fd, Serving) }

  predicate Holds(s: State, fd: int, slot: nat) { Owns(s, fd) && s.conns[fd].slot == slot }

  /**
   * An owned slot is flagged. Its socket field is broken or holds its owner's socket, except that it
   * reads 0 while the accept loop has not stored the socket yet.
   */
  predicate ConnOk(s: State, fd: int) {
    && (fd in s.conns ==> fd > 0)
    && (Owns(s, fd) ==> s.conns[fd].slot < MAX_CLIENTS && s.table.used[s.conns[fd].slot])
    && (InPhase(s, fd, Reserved) ==> fd == s.accepting && s.table.socks[s.conns[fd].slot] in [0, BROKEN])
    && (InPhase(s, fd, Serving) ==> s.table.socks[s.conns[fd].slot] in [fd, BROKEN])
    && (fd == s.accepting != 0 ==> InPhase(s, fd, Reserved))
  }

  predicate Apart(s: State, fd: int, gd: int) {
    Owns(s, fd) && Owns(s, gd) && fd != gd ==> s.conns[fd].slot != s.conns[gd].slot
  }

  ghost predicate Owned(s: State, slot: nat) { exists fd :: Holds(s, fd, slot) }

  /** A flagged slot has an owner. */
  ghost predicate Accounted(s: State, slot: nat)
    requires slot < MAX_CLIENTS
  {
    s.table.used[slot] ==> Owned(s, slot)
  }

  ghost predicate Safe(s: State) {
    && (forall fd :: ConnOk(s, fd))
    && (forall fd, gd :: Apart(s, fd, gd))
    && (forall i :: 0 <= i < MAX_CLIENTS ==> Accounted(s, i))
  }

  /** The connection a step is about; 0 for a broadcast. */
  function Actor(s: State, step: Step): int {
    match step
    case Store => s.accepting
    case SendAllStep(_, _) => 0
    case SendOneStep(fd, _, _) => fd
    case Accept(fd) => fd
    case Free(fd) => fd
    case Shut(fd) => fd
  }

  lemma StepConn(s: State, step: Step, fd: int)
    requires Enabled(s, step) && ConnOk(s, fd) && ConnOk(s, Actor(s, step)) && ConnOk(s, s.accepting)
    requires Apart(s, fd, Actor(s, step))
    ensures ConnOk(Next(s, step), fd)
  {
    hide Frame, Put;
    if step.SendAllStep? {
      BroadcastSlots(s.table, Frame(step.m), step.outcome, MAX_CLIENTS);
      hide Broadcast;
    }
  }

  lemma StepApart(s: State, step: Step, fd: int, gd: int)
    requires Enabled(s, step) && ConnOk(s, fd) && ConnOk(s, gd) && Apart(s, fd, gd)
    ensures Apart(Next(s, step), fd, gd)
  {
    hide Frame, Broadcast, Deliver, Reserve, Publish, Release, CloseSocket;
  }

  lemma StepAccounted(s: State, step: Step, slot: nat)
    requires slot < MAX_CLIENTS && Enabled(s, step) && Accounted(s, slot)
    requires ConnOk(s, Actor(s, step))
    ensures Accounted(Next(s, step), slot)
  {
    hide Frame, Put;
    var t := Next(s, step);
    if step.SendAllStep? {
      BroadcastSlots(s.table, Frame(step.m), step.outcome, MAX_CLIENTS);
    }
    hide Broadcast;
    if s.table.used[slot] {
      var fd :| Holds(s, fd, slot);
      assert step != Free(fd) ==> Holds(t, fd, slot);
    } else if t.table.used[slot] {
      assert Holds(t, Actor(s, step), slot);
    }
  }

  lemma StepSafe(s: State, step: Step)
    requires Safe(s) && Enabled(s, step)
    ensures Safe(Next(s, step))
  {
    var t := Next(s, step);
    forall fd
      ensures ConnOk(t, fd)
    {
      StepConn(s, step, fd);
    }
    forall fd, gd
      ensures Apart(t, fd, gd)
    {
      StepApart(s, step, fd, gd);
    }
    forall i | 0 <= i < MAX_CLIENTS
      ensures Accounted(t, i)
    {
      StepAccounted(s, step, i);
    }
    hide ConnOk, Apart, Accounted, Next, Enabled;
  }

  lemma {:induction false} RunSafe(steps: seq<Step>, n: nat)
    requires n <= |steps| && Legal(steps, n)
    ensures Safe(Run(steps, n))
  {
    hide Safe, Enabled, Next;
    if n == 0 {
      StartSafe();
    } else {
      RunSafe(steps, n - 1);
      StepSafe(Run(steps, n - 1), steps[n - 1]);
    }
  }

  lemma StartSafe()
    ensures Safe(Start())
  {
  }

  lemma FlaggedIffOwned(s: State, slot: nat)
    requires Safe(s) && slot < MAX_CLIENTS
    ensures s.table.used[slot] <==> Owned(s, slot)
  {
    assert Accounted(s, slot);
    if fd :| Holds(s, fd, slot) {
      assert ConnOk(s, fd);
    }
  }

  /** In every reachable state a slot is flagged exactly while a connection owns it, and only one does. */
  lemma {:induction false} FlagsMeanOwnership(steps: seq<Step>, n: nat, slot: nat)
    requires n <= |steps| && Legal(steps, n) && slot < MAX_CLIENTS
    ensures Run(steps, n).table.used[slot] <==> Owned(Run(steps, n), slot)
    ensures forall fd, gd :: Holds(Run(steps, n), fd, slot) && Holds(Run(steps, n), gd, slot) ==> fd == gd
  {
    RunSafe(steps, n);
    var s := Run(steps, n);
    FlaggedIffOwned(s, slot);
    forall fd, gd | Holds(s, fd, slot) && Holds(s, gd, slot)
      ensures fd == gd
    {
      assert Apart(s, fd, gd);
    }
    hide Run, Legal;
  }

  /** A connection is turned away exactly when all four slots are owned. */
  lemma TurnedAwayIffFull(s: State, fd: int)
    requires Safe(s) && Enabled(s, Accept(fd))
    ensures InPhase(Next(s, Accept(fd)), fd, Dropped) <==> forall i :: 0 <= i < MAX_CLIENTS ==> Owned(s, i)
  {
    forall i | 0 <= i < MAX_CLIENTS
      ensures s.table.used[i] <==> Owned(s, i)
    {
      FlaggedIffOwned(s, i);
    }
    hide Safe, Owned;
  }

  /** At most four connections own slots at once. */
  lemma AtMostFour(s: State, live: set<int>)
    requires Safe(s) && forall fd :: fd in live ==> Owns(s, fd)
    ensures |live| <= 4
  {
    assert forall fd :: fd in live ==> ConnOk(s, fd);
    DistinctSlots(s, live, MAX_CLIENTS);
  }

  lemma Member<T>(s: set<T>) returns (x: T)
    requires s != {}
    ensures x in s
  {
    x :| x in s;
  }

  lemma {:induction false} DistinctSlots(s: State, live: set<int>, k: nat)
    requires forall fd :: fd in live ==> Owns(s, fd) && s.conns[fd].slot < k
    requires forall fd, gd :: fd in live && gd in live ==> Apart(s, fd, gd)
    ensures |live| <= k
  {
    if live != {} {
      var any := Member(live);
      if fd :| fd in live && s.conns[fd].slot == k - 1 {
        forall gd | gd in live - {fd}
          ensures s.conns[gd].slot < k - 1
        {
          assert Apart(s, gd, fd);
        }
        DistinctSlots(s, live - {fd}, k - 1);
      } else {
        DistinctSlots(s, live, k - 1);
      }
    }
  }

  // ----- wires -----

  /** Being served over a socket that has not failed. */
  predicate Healthy(s: State, fd: int) {
    && InPhase(s, fd, Serving) && s.conns[fd].slot < MAX_CLIENTS
    && s.table.socks[s.conns[fd].slot] == fd
  }

  predicate Addressed(s: State, step: Step, fd: int) {
    InPhase(s, fd, Serving) && (step.SendAllStep? || (step.SendOneStep? && step.fd == fd))
  }

  /** The messages a connection should get: all that are sent to it or to everyone while it is served. */
  function Owed(steps: seq<Step>, fd: int, n: nat): seq<Message>
    requires n <= |steps| && Legal(steps, n)
  {
    if n == 0 then []
    else Owed(steps, fd, n - 1) + (if Addressed(Run(steps, n - 1), steps[n - 1], fd) then [steps[n - 1].m] else [])
  }

  /** Whole frames of the owed messages in order, then at most one cut frame, which ends all sending. */
  predicate WireOk(s: State, fd: int, owed: seq<Message>) {
    var wire := Get(s.table.sent, fd);
    && AllFit(owed) && wire <= Stream(owed, 0)
    && (fd !in s.conns || InPhase(s, fd, Reserved) || InPhase(s, fd, Dropped) ==> owed == [])
    && (fd !in s.conns || InPhase(s, fd, Reserved) || Healthy(s, fd) ==> fd !in s.table.closed)
    && (Healthy(s, fd) ==> wire == Stream(owed, 0))
    && (InPhase(s, fd, Serving) && !Healthy(s, fd) ==> wire < Stream(owed, 0))
  }

  lemma {:induction false} StreamAppend(ms: seq<Message>, m: Message, k: nat)
    requires AllFit(ms) && Fits(m) && k <= |ms|
    ensures AllFit(ms + [m]) && Stream(ms + [m], k) == Stream(ms, k) + Frame(m)
    decreases |ms| - k
  {
    hide Frame;
    if k < |ms| {
      StreamAppend(ms, m, k + 1);
    } else {
      assert Stream(ms + [m], k) == Frame(m) + Stream(ms + [m], k + 1);
    }
  }

  /** A flagged slot that holds a connection's socket is that connection's. */
  lemma OwnSlotOnly(s: State, fd: int, slot: nat)
    requires Safe(s) && slot < MAX_CLIENTS && s.table.used[slot] && s.table.socks[slot] == fd > 0
    ensures Healthy(s, fd) && s.conns[fd].slot == slot
  {
    assert Accounted(s, slot);
    var gd :| Holds(s, gd, slot);
    assert ConnOk(s, gd);
  }

  /** A step writes to a connection's socket only when it addresses it and finds it healthy. */
  lemma OthersUntouched(s: State, step: Step, fd: int)
    requires Safe(s) && Enabled(s, step) && fd > 0 && !(Addressed(s, step, fd) && Healthy(s, fd))
    ensures Get(Next(s, step).table.sent, fd) == Get(s.table.sent, fd)
    ensures fd in Next(s, step).table.closed ==>
              fd in s.table.closed || step == Shut(fd) || (step == Accept(fd) && InPhase(Next(s, step), fd, Dropped))
  {
    hide Frame;
    if step.SendAllStep? {
      forall i | 0 <= i < MAX_CLIENTS && Heard(s.table, i)
        ensures s.table.socks[i] != fd
      {
        if s.table.socks[i] == fd {
          OwnSlotOnly(s, fd, i);
        }
      }
      BroadcastSkips(s.table, Frame(step.m), step.outcome, MAX_CLIENTS, fd);
    } else if step.SendOneStep? {
      assert ConnOk(s, step.fd);
      DeliverElsewhere(s.table, s.conns[step.fd].slot, Frame(step.m), step.moved, fd);
    }
    hide Safe, Broadcast, Deliver;
  }

  /** How many bytes of its message a step moves to a healthy connection it addresses. */
  function MovedTo(s: State, step: Step, fd: int): nat
    requires Addressed(s, step, fd) && Healthy(s, fd)
  {
    if step.SendAllStep? then step.outcome[s.conns[fd].slot] else step.moved
  }

  /** An addressed healthy connection gets its own share, whatever happens to the others in this step. */
  lemma AddressedGetsIts(s: State, step: Step, fd: int)
    requires Safe(s) && Enabled(s, step) && fd > 0 && Healthy(s, fd) && Addressed(s, step, fd)
    ensures MovedTo(s, step, fd) <= |Frame(step.m)|
    ensures Get(Next(s, step).table.sent, fd) == Get(s.table.sent, fd) + Frame(step.m)[..MovedTo(s, step, fd)]
    ensures Healthy(Next(s, step), fd) <==> MovedTo(s, step, fd) == |Frame(step.m)|
    ensures fd in Next(s, step).table.closed <==> fd in s.table.closed || MovedTo(s, step, fd) < |Frame(step.m)|
  {
    hide Frame;
    var slot := s.conns[fd].slot;
    assert ConnOk(s, fd);
    if step.SendAllStep? {
      forall i | 0 <= i < MAX_CLIENTS && i != slot && Heard(s.table, i)
        ensures s.table.socks[i] != fd
      {
        if s.table.socks[i] == fd {
          OwnSlotOnly(s, fd, i);
        }
      }
      BroadcastReaches(s.table, Frame(step.m), step.outcome, MAX_CLIENTS, slot);
      BroadcastSlots(s.table, Frame(step.m), step.outcome, MAX_CLIENTS);
    } else {
      DeliverHere(s.table, slot, Frame(step.m), step.moved);
    }
    hide Safe, Broadcast, Put, Get;
  }

  lemma WireAddressed(s: State, step: Step, fd: int, owed: seq<Message>)
    requires Safe(s) && Enabled(s, step) && fd > 0 && WireOk(s, fd, owed) && Addressed(s, step, fd)
    ensures WireOk(Next(s, step), fd, owed + [step.m])
  {
    hide Frame, Safe;
    StreamAppend(owed, step.m, 0);
    if Healthy(s, fd) {
      AddressedGetsIts(s, step, fd);
    } else {
      OthersUntouched(s, step, fd);
      StaysBroken(s, step, fd);
    }
    hide Stream, Broadcast, Deliver, Get;
  }

  /** A connection once served and broken or given back never becomes healthy again. */
  lemma StaysBroken(s: State, step: Step, fd: int)
    requires Safe(s) && Enabled(s, step) && fd in s.conns && !InPhase(s, fd, Reserved) && !Healthy(s, fd)
    ensures fd in Next(s, step).conns && !InPhase(Next(s, step), fd, Reserved) && !Healthy(Next(s, step), fd)
    ensures Get(Next(s, step).table.sent, fd) == Get(s.table.sent, fd)
  {
    assert ConnOk(s, fd);
    OthersUntouched(s, step, fd);
    assert ConnOk(s, fd) && ConnOk(s, Actor(s, step)) && Apart(s, fd, Actor(s, step)) && ConnOk(s, s.accepting);
    hide Frame, Put, Safe;
    if step.SendAllStep? {
      BroadcastSlots(s.table, Frame(step.m), step.outcome, MAX_CLIENTS);
      hide Broadcast;
    }
  }

  lemma StaysHealthy(s: State, step: Step, fd: int)
    requires Safe(s) && Enabled(s, step) && Healthy(s, fd) && !Addressed(s, step, fd)
    ensures InPhase(Next(s, step), fd, Serving) ==> Healthy(Next(s, step), fd)
  {
    assert ConnOk(s, fd) && ConnOk(s, Actor(s, step)) && Apart(s, fd, Actor(s, step)) && ConnOk(s, s.accepting);
    hide Frame, Put, Safe, Broadcast;
  }

  lemma WireUnaddressed(s: State, step: Step, fd: int, owed: seq<Message>)
    requires Safe(s) && Enabled(s, step) && fd > 0 && WireOk(s, fd, owed) && !Addressed(s, step, fd)
    ensures WireOk(Next(s, step), fd, owed)
  {
    OthersUntouched(s, step, fd);
    if fd in s.conns && !InPhase(s, fd, Reserved) {
      if Healthy(s, fd) {
        StaysHealthy(s, step, fd);
      } else {
        StaysBroken(s, step, fd);
      }
    } else {
      assert ConnOk(s, fd) && ConnOk(s, s.accepting);
    }
    hide Safe, Frame, Put, Get, Broadcast, Deliver;
  }

  /**
   * Over every run, whatever the sizes and failures of all sends: what has gone out to a connection is
   * the concatenation of whole frames of the messages owed to it, in order, ended by at most one cut
   * frame. While its socket is healthy it is all of them.
   */
  lemma {:induction false} WiresCarryWholeFrames(steps: seq<Step>, n: nat, fd: int)
    requires n <= |steps| && Legal(steps, n) && fd > 0
    ensures WireOk(Run(steps, n), fd, Owed(steps, fd, n))
  {
    if n > 0 {
      var s := Run(steps, n - 1);
      RunSafe(steps, n - 1);
      WiresCarryWholeFrames(steps, n - 1, fd);
      var owed := Owed(steps, fd, n - 1);
      if Addressed(s, steps[n - 1], fd) {
        WireAddressed(s, steps[n - 1], fd, owed);
      } else {
        WireUnaddressed(s, steps[n - 1], fd, owed);
        assert owed + [] == owed;
      }
      hide WireOk, Safe, Next, Addressed, Enabled;
    }
  }

  /** Once a connection's socket has failed or its slot was given back, nothing more is written to it. */
  lemma {:induction false} BrokenWiresAreFrozen(steps: seq<Step>, j: nat, n: nat, fd: int)
    requires j <= n <= |steps| && Legal(steps, n) && Legal(steps, j) && fd in Run(steps, j).conns
    requires !InPhase(Run(steps, j), fd, Reserved) && !Healthy(Run(steps, j), fd)
    ensures fd in Run(steps, n).conns && !InPhase(Run(steps, n), fd, Reserved) && !Healthy(Run(steps, n), fd)
    ensures Get(Run(steps, n).table.sent, fd) == Get(Run(steps, j).table.sent, fd)
  {
    hide Safe, Next, Healthy, Enabled, Get;
    if j < n {
      BrokenWiresAreFrozen(steps, j, n - 1, fd);
      RunSafe(steps, n - 1);
      StaysBroken(Run(steps, n - 1), steps[n - 1], fd);
    }
  }

  /** The accept loop has taken a slot whose socket field still reads 0. */
  predicate Unstored(s: State) {
    && InPhase(s, s.accepting, Reserved) && s.conns[s.accepting].slot < MAX_CLIENTS
    && s.table.socks[s.conns[s.accepting].slot] == 0
  }

  /**
   * Descriptor 0, which belongs to no client, is written exactly when a broadcast finds a slot whose
   * socket is not stored yet and moves some bytes to it.
   */
  lemma StrayWriteIffUnstored(s: State, step: Step)
    requires Safe(s) && Enabled(s, step)
    ensures Get(Next(s, step).table.sent, 0) != Get(s.table.sent, 0) <==>
            step.SendAllStep? && Unstored(s) && step.outcome[s.conns[s.accepting].slot] > 0
  {
    hide Frame;
    assert ConnOk(s, s.accepting) && ConnOk(s, 0);
    if step.SendAllStep? {
      forall i | 0 <= i < MAX_CLIENTS && Heard(s.table, i) && s.table.socks[i] == 0
        ensures Unstored(s) && i == s.conns[s.accepting].slot
      {
        assert Accounted(s, i);
        var gd :| Holds(s, gd, i);
        assert ConnOk(s, gd);
      }
      if Unstored(s) {
        BroadcastReaches(s.table, Frame(step.m), step.outcome, MAX_CLIENTS, s.conns[s.accepting].slot);
      } else {
        BroadcastSkips(s.table, Frame(step.m), step.outcome, MAX_CLIENTS, 0);
      }
    } else if step.SendOneStep? {
      assert ConnOk(s, step.fd);
      DeliverElsewhere(s.table, s.conns[step.fd].slot, Frame(step.m), step.moved, 0);
    }
    hide Safe, Broadcast, Deliver, Get;
  }

  // ----- which sockets are closed -----

  /** The step sends a healthy connection less than the whole frame. */
  predicate ShortSend(s: State, step: Step, fd: int) {
    Enabled(s, step) && Addressed(s, step, fd) && Healthy(s, fd) && MovedTo(s, step, fd) < |Frame(step.m)|
  }

  /** One of the first n steps does. */
  ghost predicate Shortened(steps: seq<Step>, fd: int, n: nat)
    requires n <= |steps| && Legal(steps, n)
  {
    exists j :: 0 <= j < n && Legal(steps, j) && ShortSend(Run(steps, j), steps[j], fd)
  }

  /** One step closes a connection's socket exactly when it turns it away, ends it, or sends it too little. */
  lemma StepCloses(s: State, step: Step, fd: int)
    requires Safe(s) && Enabled(s, step) && fd > 0
    ensures fd in Next(s, step).table.closed <==>
              || fd in s.table.closed || ShortSend(s, step, fd)
              || step == Shut(fd) || (step == Accept(fd) && InPhase(Next(s, step), fd, Dropped))
  {
    hide Frame, Put, Get;
    if Addressed(s, step, fd) && Healthy(s, fd) {
      AddressedGetsIts(s, step, fd);
    } else {
      OthersUntouched(s, step, fd);
      if step.SendAllStep? {
        ClosedGrows(s.table, Frame(step.m), step.outcome, MAX_CLIENTS);
      }
    }
    hide Safe, Broadcast;
  }

  lemma {:induction false} ClosedGrows(t: Table, frame: seq<Byte>, outcome: Outcome, n: nat)
    requires n <= MAX_CLIENTS && Within(outcome, frame)
    ensures t.closed <= Broadcast(t, frame, outcome, n).closed
  {
    if n > 0 {
      ClosedGrows(t, frame, outcome, n - 1);
    }
  }

  /** A connection ends turned away or gone by exactly the steps that close it, and stays so. */
  lemma StepEnds(s: State, step: Step, fd: int)
    requires Safe(s) && Enabled(s, step)
    ensures InPhase(Next(s, step), fd, Gone) <==> InPhase(s, fd, Gone) || step == Shut(fd)
    ensures InPhase(Next(s, step), fd, Dropped) <==>
            InPhase(s, fd, Dropped) || (step == Accept(fd) && InPhase(Next(s, step), fd, Dropped))
  {
    assert ConnOk(s, s.accepting);
    hide Safe, Frame, Broadcast, Deliver, Reserve, Publish, Release, CloseSocket;
  }

  /**
   * In every run a connection's socket is closed exactly when it was turned away, its handler has ended,
   * or a send to it fell short while it was healthy.
   */
  lemma {:induction false} ClosedIff(steps: seq<Step>, fd: int, n: nat)
    requires n <= |steps| && Legal(steps, n) && fd > 0
    ensures fd in Run(steps, n).table.closed <==>
              || InPhase(Run(steps, n), fd, Dropped) || InPhase(Run(steps, n), fd, Gone) || Shortened(steps, fd, n)
  {
    hide Next, Enabled, Safe, ShortSend, InPhase;
    if n == 0 {
      assert !InPhase(Start(), fd, Dropped) && !InPhase(Start(), fd, Gone) by {
        NoneAtStart(fd);
      }
    } else {
      ClosedIff(steps, fd, n - 1);
      RunSafe(steps, n - 1);
      StepCloses(Run(steps, n - 1), steps[n - 1], fd);
      StepEnds(Run(steps, n - 1), steps[n - 1], fd);
      OneMoreStep(steps, fd, n);
    }
  }

  lemma NoneAtStart(fd: int)
    ensures !InPhase(Start(), fd, Dropped) && !InPhase(Start(), fd, Gone)
  {
  }

  lemma OneMoreStep(steps: seq<Step>, fd: int, n: nat)
    requires 0 < n <= |steps| && Legal(steps, n)
    ensures Shortened(steps, fd, n) <==> Shortened(steps, fd, n - 1) || ShortSend(Run(steps, n - 1), steps[n - 1], fd)
  {
    hide ShortSend;
  }
}
