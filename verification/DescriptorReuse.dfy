/**
 * What becomes of the clients when the network hands a closed descriptor's number out again. A sender
 * closes the socket of a client whose send failed; the client's handler keeps the number and closes it
 * once more when it ends. Connections have identities of their own here.
 */
module DescriptorReuse {

  /** A live connection's record holds its descriptor; a broken one's does not, but its handler still does. */
  datatype Phase = Live | Broken | Ended

  datatype Conn = Conn(fd: int, phase: Phase)

  /** The connection for which each open number was opened, and every connection so far. */
  datatype State = State(holder: map<int, nat>, conns: map<nat, Conn>)

  datatype Step =
    | Open(c: nat, fd: int)
    | Break(c: nat)
    | End(c: nat)

  /** The network gives out any number that is not open. */
  predicate Enabled(s: State, step: Step) {
    match step
    case Open(c, fd) => c !in s.conns && fd !in s.holder
    case Break(c) => c in s.conns && s.conns[c].phase.Live?
    case End(c) => c in s.conns && !s.conns[c].phase.Ended?
  }

  /** Closing frees the number, whoever it was opened for, and does nothing when it is not open. */
  function Next(s: State, step: Step): State {
    if !Enabled(s, step) then
      s
    else
      match step
      case Open(c, fd) => State(s.holder[fd := c], s.conns[c := Conn(fd, Live)])
      case Break(c) => State(s.holder - {s.conns[c].fd}, s.conns[c := s.conns[c].(phase := Broken)])
      case End(c) => State(s.holder - {s.conns[c].fd}, s.conns[c := s.conns[c].(phase := Ended)])
  }

  function Run(steps: seq<Step>, n: nat): State
    requires n <= |steps|
  {
    if n == 0 then State(map[], map[]) else Next(Run(steps, n - 1), steps[n - 1])
  }

  predicate IsLive(s: State, c: nat) { c in s.conns && s.conns[c].phase.Live? }

  /** Sends to a live connection reach it: its number is open and was opened for it. */
  predicate Reached(s: State, c: nat) { IsLive(s, c) ==> s.conns[c].fd in s.holder && s.holder[s.conns[c].fd] == c }

  ghost predicate AllReached(s: State) { forall c :: Reached(s, c) }

  /** Every open number belongs to a live connection. */
  predicate HeldByLive(s: State, fd: int) { fd in s.holder ==> IsLive(s, s.holder[fd]) && s.conns[s.holder[fd]].fd == fd }

  ghost predicate AllHeld(s: State) { forall fd :: HeldByLive(s, fd) }

  /** The handler of a broken connection ends after its number has been opened again. */
  predicate ClosesAnother(s: State, step: Step) {
    step.End? && Enabled(s, step) && s.conns[step.c].phase.Broken? && s.conns[step.c].fd in s.holder
  }

  lemma StepHeld(s: State, step: Step)
    requires AllReached(s) && AllHeld(s)
    ensures AllHeld(Next(s, step))
  {
    var t := Next(s, step);
    forall fd
      ensures HeldByLive(t, fd)
    {
      assert HeldByLive(s, fd);
      if Enabled(s, step) && !step.Open? {
        assert Reached(s, step.c);
      }
    }
  }

  /** One step from a state in which all live connections are reached leaves one unreached exactly in that case. */
  lemma StepReachedIff(s: State, step: Step)
    requires AllReached(s) && AllHeld(s)
    ensures AllReached(Next(s, step)) <==> !ClosesAnother(s, step)
  {
    var t := Next(s, step);
    if ClosesAnother(s, step) {
      var other := s.holder[s.conns[step.c].fd];
      assert HeldByLive(s, s.conns[step.c].fd);
      assert !Reached(t, other);
    } else {
      forall c
        ensures Reached(t, c)
      {
        assert Reached(s, c);
        if Enabled(s, step) {
          assert Reached(s, step.c);
        }
      }
    }
  }

  /**
   * Over every run with numbers handed out again: at every point sends to every live connection reach it
   * if and only if no handler of a broken connection ends while its number is open again. So this is
   * exactly when one client's failure never drops a broadcast to another.
   */
  lemma {:induction false} ReachedThroughoutIff(steps: seq<Step>, n: nat)
    requires n <= |steps|
    ensures (forall k :: 0 <= k <= n ==> AllReached(Run(steps, k)))
            <==> forall k :: 0 <= k < n ==> !ClosesAnother(Run(steps, k), steps[k])
    ensures (forall k :: 0 <= k < n ==> !ClosesAnother(Run(steps, k), steps[k])) ==> AllHeld(Run(steps, n))
  {
    hide Next, AllReached, AllHeld, ClosesAnother;
    if n == 0 {
      StartReached();
    } else {
      ReachedThroughoutIff(steps, n - 1);
      if forall k :: 0 <= k < n - 1 ==> !ClosesAnother(Run(steps, k), steps[k]) {
        assert AllReached(Run(steps, n - 1));
        StepReachedIff(Run(steps, n - 1), steps[n - 1]);
        StepHeld(Run(steps, n - 1), steps[n - 1]);
        assert Run(steps, n) == Next(Run(steps, n - 1), steps[n - 1]);
      }
    }
  }

  lemma StartReached()
    ensures AllReached(State(map[], map[])) && AllHeld(State(map[], map[]))
  {
  }

  /** It happens: a failed send, a new client on the freed number, and the end of the old handler. */
  lemma {:induction false} ReuseDropsAnother(fd: int)
    ensures var steps := [Open(0, fd), Break(0), Open(1, fd), End(0)];
            && (forall k :: 0 <= k < 4 ==> Enabled(Run(steps, k), steps[k]))
            && IsLive(Run(steps, 4), 1) && !Reached(Run(steps, 4), 1)
  {
    var steps := [Open(0, fd), Break(0), Open(1, fd), End(0)];
    assert Run(steps, 0) == State(map[], map[]);
    assert Run(steps, 1) == State(map[fd := 0], map[0 := Conn(fd, Live)]);
    assert Run(steps, 2) == State(map[], map[0 := Conn(fd, Broken)]);
    assert Run(steps, 3) == State(map[fd := 1], map[0 := Conn(fd, Broken), 1 := Conn(fd, Live)]);
    assert Run(steps, 4) == State(map[], map[0 := Conn(fd, Ended), 1 := Conn(fd, Live)]);
  }

  /** With numbers never handed out again it never happens. */
  lemma {:induction false} FreshNeverCloses(steps: seq<Step>, k: nat)
    requires k < |steps|
    requires forall i, j :: 0 <= i < j < |steps| && steps[i].Open? && steps[j].Open? ==> steps[i].fd != steps[j].fd
    ensures !ClosesAnother(Run(steps, k), steps[k])
  {
    hide Next;
    if ClosesAnother(Run(steps, k), steps[k]) {
      var c := steps[k].c;
      OpenedOnce(steps, k, c, Run(steps, k).conns[c].fd);
    }
  }

  /** When no number is opened twice, one that is open and was a connection's is still that live connection's. */
  lemma {:induction false} OpenedOnce(steps: seq<Step>, n: nat, c: nat, fd: int)
    requires n <= |steps|
    requires forall i, j :: 0 <= i < j < |steps| && steps[i].Open? && steps[j].Open? ==> steps[i].fd != steps[j].fd
    requires c in Run(steps, n).conns && Run(steps, n).conns[c].fd == fd
    ensures fd in Run(steps, n).holder ==> Run(steps, n).conns[c].phase.Live?
    ensures exists i :: 0 <= i < n && steps[i].Open? && steps[i].fd == fd
  {
    var q := Run(steps, n - 1);
    if c in q.conns && q.conns[c].fd == fd {
      OpenedOnce(steps, n - 1, c, fd);
    }
  }
}
