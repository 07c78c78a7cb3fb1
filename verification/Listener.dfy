/** The server's client table, changed in place under its lock. */
module Listener {
  import opened Words
  import opened Sockets
  import opened PscMsg
  import opened ClientTable

  class PscServer {
    const net: Network
    var clientsUsed: Flags
    /** The socket field of each client record. */
    const socks: array<int>

    ghost predicate Valid()
      reads this
    {
      socks.Length == MAX_CLIENTS
    }

    ghost function View(): Table
      reads this, socks, net
      requires Valid()
    {
      Table(clientsUsed, socks[..], net.sent, net.closed)
    }

    constructor (network: Network)
      ensures Valid() && net == network && fresh(socks)
      ensures View() == Table([false, false, false, false], [0, 0, 0, 0], network.sent, network.closed)
    {
      net, clientsUsed := network, [false, false, false, false];
      socks := new int[MAX_CLIENTS](_ => 0);
    }

    /** Takes the first unused slot; MAX_CLIENTS stands for a full table. */
    method ClientAlloc() returns (slot: nat)
      requires Valid()
      modifies this, socks
      ensures Valid() && slot == FirstFree(old(clientsUsed), 0)
      ensures View() == if slot < MAX_CLIENTS then Reserve(old(View()), slot) else old(View())
      ensures slot < 4 ==> !old(clientsUsed[slot]) && clientsUsed[slot] && socks[slot] == 0
      ensures slot >= 4 <==> old(clientsUsed[0] && clientsUsed[1] && clientsUsed[2] && clientsUsed[3])
    {
      slot := MAX_CLIENTS;
      for i := 0 to MAX_CLIENTS
        invariant slot == MAX_CLIENTS && View() == old(View())
        invariant FirstFree(clientsUsed, 0) == FirstFree(clientsUsed, i)
      {
        if clientsUsed[i] {
          continue;
        }
        clientsUsed := clientsUsed[i := true];
        socks[i] := 0;
        slot := i;
        break;
      }
    }

    /** Gives a slot back and wipes its record. */
    method ClientFree(slot: nat)
      requires Valid() && slot < MAX_CLIENTS
      modifies this, socks
      ensures Valid() && View() == Release(old(View()), slot)
      ensures !clientsUsed[slot] && socks[slot] == 0
    {
      clientsUsed := clientsUsed[slot := false];
      socks[slot] := 0;
    }

    /** Accepts a connection: it gets a slot and then its socket, or is closed when the table is full. */
    method Admit(fd: int) returns (slot: nat)
      requires Valid()
      modifies this, socks, net`closed
      ensures Valid() && slot == FirstFree(old(clientsUsed), 0)
      ensures View() == if slot < MAX_CLIENTS then Publish(Reserve(old(View()), slot), slot, fd)
                        else CloseSocket(old(View()), fd)
      ensures net.closed == old(net.closed) + if slot < 4 then {} else {fd}
      ensures slot < 4 ==> clientsUsed[slot] && socks[slot] == fd
    {
      slot := ClientAlloc();
      if slot == MAX_CLIENTS {
        net.Close(fd);
      } else {
        socks[slot] := fd;
      }
    }

    /** The end of a handler: its slot is given back before its socket is closed. */
    method Dismiss(slot: nat, fd: int)
      requires Valid() && slot < MAX_CLIENTS
      modifies this, socks, net`closed
      ensures Valid() && View() == CloseSocket(Release(old(View()), slot), fd)
      ensures net.closed == old(net.closed) + {fd} && !clientsUsed[slot] && socks[slot] == 0
    {
      ClientFree(slot);
      net.Close(fd);
    }

    /** Sends one message to one client, giving up on its socket when that fails. */
    method SendOne(slot: nat, m: Message) returns (ghost moved: nat)
      requires Valid() && slot < MAX_CLIENTS && Fits(m)
      modifies socks, net`sent, net`closed, net`last
      ensures Valid() && moved <= |Frame(m)| && View() == Deliver(old(View()), slot, Frame(m), moved)
      ensures moved < |Frame(m)| ==> net.faulty && socks[slot] == -1 && old(socks[slot]) in net.closed
    {
      hide Frame, Put;
      moved := |Frame(m)|;
      if socks[slot] != BROKEN {
        var status;
        status, moved := SendMsg(net, socks[slot], m);
        assert moved == |Frame(m)| ==> Frame(m)[..moved] == Frame(m);
        if !status.Ok? {
          net.Close(socks[slot]);
          socks[slot] := BROKEN;
        }
      }
    }

    /** Sends one message to every client whose socket has not failed. */
    method SendToAll(m: Message) returns (ghost outcome: Outcome)
      requires Valid() && Fits(m)
      modifies socks, net`sent, net`closed, net`last
      ensures Valid() && Within(outcome, Frame(m))
      ensures View() == Broadcast(old(View()), Frame(m), outcome, MAX_CLIENTS)
    {
      hide Frame, Put;
      outcome := [0, 0, 0, 0];
      for i := 0 to MAX_CLIENTS
        invariant Within(outcome, Frame(m)) && clientsUsed == old(clientsUsed)
        invariant View() == Broadcast(old(View()), Frame(m), outcome, i)
      {
        if !clientsUsed[i] || socks[i] == BROKEN {
          continue;
        }
        ghost var was, earlier := View(), outcome;
        var status;
        ghost var moved;
        status, moved := SendMsg(net, socks[i], m);
        assert moved == |Frame(m)| ==> Frame(m)[..moved] == Frame(m);
        if !status.Ok? {
          net.Close(socks[i]);
          socks[i] := BROKEN;
        }
        outcome := outcome[i := moved];
        BroadcastUsesEarlier(old(View()), Frame(m), earlier, outcome, i);
        assert View() == Deliver(was, i, Frame(m), moved);
      }
    }
  }

  lemma {:induction false} BroadcastUsesEarlier(t: Table, frame: seq<Byte>, a: Outcome, b: Outcome, n: nat)
    requires n <= MAX_CLIENTS && Within(a, frame) && Within(b, frame)
    requires forall i :: 0 <= i < n ==> a[i] == b[i]
    ensures Broadcast(t, frame, a, n) == Broadcast(t, frame, b, n)
  {
    if n > 0 {
      BroadcastUsesEarlier(t, frame, a, b, n - 1);
    }
  }
}
