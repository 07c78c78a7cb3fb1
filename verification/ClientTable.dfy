/** The client table as a value, with what each guarded operation makes of it. */
module ClientTable {
  import opened Words
  import opened Sockets

  const MAX_CLIENTS := 4
  /** Marks a slot whose socket failed. */
  const BROKEN := -1

  type Flags = s: seq<bool> | |s| == MAX_CLIENTS witness [false, false, false, false]
  type Socks = s: seq<int> | |s| == MAX_CLIENTS witness [0, 0, 0, 0]

  /** Per slot, how many bytes of a frame its socket took. */
  type Outcome = s: seq<nat> | |s| == MAX_CLIENTS witness [0, 0, 0, 0]

  datatype Table = Table(used: Flags, socks: Socks, sent: map<int, seq<Byte>>, closed: set<int>)

  /** The first unused slot from i on, or MAX_CLIENTS when there is none. */
  function FirstFree(used: Flags, i: nat): (slot: nat)
    requires i <= MAX_CLIENTS
    ensures i <= slot <= MAX_CLIENTS
    ensures forall j :: i <= j < slot ==> used[j]
    ensures slot < MAX_CLIENTS ==> !used[slot]
    decreases MAX_CLIENTS - i
  {
    if i == MAX_CLIENTS || !used[i] then i else FirstFree(used, i + 1)
  }

  /** A slot is taken: its socket field reads 0 until the accept loop stores the socket. */
  function Reserve(t: Table, slot: nat): Table
    requires slot < MAX_CLIENTS
  {
    t.(used := t.used[slot := true], socks := t.socks[slot := 0])
  }

  function Publish(t: Table, slot: nat, fd: int): Table
    requires slot < MAX_CLIENTS
  {
    t.(socks := t.socks[slot := fd])
  }

  function Release(t: Table, slot: nat): Table
    requires slot < MAX_CLIENTS
  {
    t.(used := t.used[slot := false], socks := t.socks[slot := 0])
  }

  function CloseSocket(t: Table, fd: int): Table { t.(closed := t.closed + {fd}) }

  /** One frame to one slot whose socket takes the first n bytes of it. */
  function Deliver(t: Table, slot: nat, frame: seq<Byte>, n: nat): Table
    requires slot < MAX_CLIENTS && n <= |frame|
  {
    if t.socks[slot] == BROKEN then
      t
    else if n == |frame| then
      t.(sent := Put(t.sent, t.socks[slot], frame))
    else
      t.(sent := Put(t.sent, t.socks[slot], frame[..n]), socks := t.socks[slot := BROKEN],
         closed := t.closed + {t.socks[slot]})
  }

  predicate Within(outcome: Outcome, frame: seq<Byte>) {
    forall i :: 0 <= i < MAX_CLIENTS ==> outcome[i] <= |frame|
  }

  /** One frame to every used slot below n, in order. */
  function Broadcast(t: Table, frame: seq<Byte>, outcome: Outcome, n: nat): Table
    requires n <= MAX_CLIENTS && Within(outcome, frame)
  {
    if n == 0 then
      t
    else
      var before := Broadcast(t, frame, outcome, n - 1);
      if before.used[n - 1] then Deliver(before, n - 1, frame, outcome[n - 1]) else before
  }

  // ----- what a broadcast does, slot by slot and socket by socket -----

  predicate Heard(t: Table, slot: nat)
    requires slot < MAX_CLIENTS
  {
    t.used[slot] && t.socks[slot] != BROKEN
  }

  /** A broadcast changes no flag, and breaks exactly the heard slots that did not take the whole frame. */
  lemma {:induction false} BroadcastSlots(t: Table, frame: seq<Byte>, outcome: Outcome, n: nat)
    requires n <= MAX_CLIENTS && Within(outcome, frame)
    ensures Broadcast(t, frame, outcome, n).used == t.used
    ensures forall i :: 0 <= i < MAX_CLIENTS ==>
              Broadcast(t, frame, outcome, n).socks[i] ==
              if i < n && Heard(t, i) && outcome[i] < |frame| then BROKEN else t.socks[i]
  {
    if n > 0 {
      BroadcastSlots(t, frame, outcome, n - 1);
    }
  }

  /** No heard slot below n holds this socket. */
  predicate Unheard(t: Table, fd: int, n: nat)
    requires n <= MAX_CLIENTS
  {
    forall i :: 0 <= i < n && Heard(t, i) ==> t.socks[i] != fd
  }

  lemma DeliverElsewhere(t: Table, slot: nat, frame: seq<Byte>, n: nat, fd: int)
    requires slot < MAX_CLIENTS && n <= |frame|
    requires t.socks[slot] != fd || fd == BROKEN
    ensures Get(Deliver(t, slot, frame, n).sent, fd) == Get(t.sent, fd)
    ensures fd in Deliver(t, slot, frame, n).closed <==> fd in t.closed
  {
  }

  lemma DeliverHere(t: Table, slot: nat, frame: seq<Byte>, n: nat)
    requires slot < MAX_CLIENTS && n <= |frame| && t.socks[slot] != BROKEN
    ensures Get(Deliver(t, slot, frame, n).sent, t.socks[slot]) == Get(t.sent, t.socks[slot]) + frame[..n]
    ensures t.socks[slot] in Deliver(t, slot, frame, n).closed <==> t.socks[slot] in t.closed || n < |frame|
  {
    assert n == |frame| ==> frame[..n] == frame;
  }

  /** A socket that no heard slot holds is not touched by a broadcast. */
  lemma {:induction false} BroadcastSkips(t: Table, frame: seq<Byte>, outcome: Outcome, n: nat, fd: int)
    requires n <= MAX_CLIENTS && Within(outcome, frame) && Unheard(t, fd, n)
    ensures Get(Broadcast(t, frame, outcome, n).sent, fd) == Get(t.sent, fd)
    ensures fd in Broadcast(t, frame, outcome, n).closed <==> fd in t.closed
  {
    if n > 0 {
      BroadcastSkips(t, frame, outcome, n - 1, fd);
      BroadcastSlots(t, frame, outcome, n - 1);
      var before := Broadcast(t, frame, outcome, n - 1);
      hide Deliver, Get;
      if Heard(t, n - 1) {
        DeliverElsewhere(before, n - 1, frame, outcome[n - 1], fd);
      } else if t.used[n - 1] {
        DeliverElsewhere(before, n - 1, frame, outcome[n - 1], fd);
      }
    }
  }

  /**
   * A socket held by exactly one heard slot gets exactly what that slot's own send moves, whatever
   * becomes of the sends to the other slots.
   */
  lemma {:induction false} BroadcastReaches(t: Table, frame: seq<Byte>, outcome: Outcome, n: nat, slot: nat)
    requires slot < n <= MAX_CLIENTS && Within(outcome, frame) && Heard(t, slot)
    requires forall i :: 0 <= i < n && i != slot && Heard(t, i) ==> t.socks[i] != t.socks[slot]
    ensures Get(Broadcast(t, frame, outcome, n).sent, t.socks[slot]) ==
            Get(t.sent, t.socks[slot]) + frame[..outcome[slot]]
    ensures t.socks[slot] in Broadcast(t, frame, outcome, n).closed <==>
            t.socks[slot] in t.closed || outcome[slot] < |frame|
  {
    var before := Broadcast(t, frame, outcome, n - 1);
    BroadcastSlots(t, frame, outcome, n - 1);
    if slot == n - 1 {
      BroadcastSkips(t, frame, outcome, n - 1, t.socks[slot]);
      DeliverHere(before, slot, frame, outcome[slot]);
    } else {
      BroadcastReaches(t, frame, outcome, n - 1, slot);
      if before.used[n - 1] {
        DeliverElsewhere(before, n - 1, frame, outcome[n - 1], t.socks[slot]);
      }
    }
    hide Deliver, Get;
  }
}
