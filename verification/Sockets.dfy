/**
 * The socket calls the server relies on. How many bytes one call moves, and whether it fails, is up to
 * the network: the bodies choose freely within the contracts.
 */
module Sockets {
  import opened Words

  type Byte = Word8

  function Get(m: map<int, seq<Byte>>, fd: int): seq<Byte> { if fd in m then m[fd] else [] }

  /** The bytes of each socket after data has gone out on fd. */
  function Put(m: map<int, seq<Byte>>, fd: int, data: seq<Byte>): map<int, seq<Byte>> {
    if data == [] then m else m[fd := Get(m, fd) + data]
  }

  lemma PutPut(m: map<int, seq<Byte>>, fd: int, a: seq<Byte>, b: seq<Byte>)
    ensures Put(Put(m, fd, a), fd, b) == Put(m, fd, a + b)
  {
    if a == [] {
      assert a + b == b;
    } else if b == [] {
      assert a + b == a;
    } else {
      assert Get(m, fd) + a + b == Get(m, fd) + (a + b);
    }
  }

  lemma GetPut(m: map<int, seq<Byte>>, fd: int)
    ensures forall data :: Get(Put(m, fd, data), fd) == Get(m, fd) + data
  {
    assert forall data: seq<Byte> :: data == [] ==> Get(m, fd) + data == Get(m, fd);
  }

  class Network {
    /** Bytes accepted for sending so far, by socket. */
    var sent: map<int, seq<Byte>>
    /** Bytes still to be received, by socket. */
    var inbox: map<int, seq<Byte>>
    /** Sockets that have been closed. */
    var closed: set<int>
    /** Sockets on which receiving has failed. */
    var recvFailed: set<int>
    /** What the newest call to send or receive has returned. */
    var last: int
    /** Whether such a failure stays. A receive timeout is one that does not. */
    const sticky: bool
    /** Whether calls may fail for reasons of the network's own. */
    const faulty: bool

    /** Moves one or more bytes out, or returns 0 or less for an error. */
    method Send(fd: int, data: seq<Byte>) returns (ret: int)
      requires data != []
      modifies this`sent, this`last
      ensures ret <= |data| && last == ret
      ensures sent == Put(old(sent), fd, data[..Max(ret, 0)])
      ensures ret <= 0 ==> faulty
    {
      ret :| -1 <= ret <= |data| && (!faulty ==> ret > 0);
      last := ret;
      if ret > 0 {
        sent := sent[fd := Get(sent, fd) + data[..ret]];
      }
    }

    method Close(fd: int)
      modifies this`closed
      ensures closed == old(closed) + {fd}
    {
      closed := closed + {fd};
    }

    /** Moves between 1 and n bytes into dst from off on, or returns 0 or less for an error. */
    method Recv(fd: int, dst: array<Byte>, off: nat, n: nat) returns (ret: int)
      requires n > 0 && off + n <= dst.Length
      modifies this`inbox, this`recvFailed, this`last, dst
      ensures ret <= n && last == ret
      ensures ret > 0 ==> !(sticky && fd in old(recvFailed)) && ret <= |Get(old(inbox), fd)|
      ensures ret > 0 ==> inbox == old(inbox)[fd := Get(old(inbox), fd)[ret..]] && recvFailed == old(recvFailed)
      ensures ret > 0 ==> dst[..off + ret] == old(dst[..off]) + Get(old(inbox), fd)[..ret]
      ensures dst[off + Max(ret, 0)..] == old(dst[off + Max(ret, 0)..])
      ensures ret <= 0 ==> dst[..] == old(dst[..]) && inbox == old(inbox) && recvFailed == old(recvFailed) + {fd}
      ensures ret <= 0 ==> faulty || (sticky && fd in old(recvFailed)) || Get(old(inbox), fd) == []
    {
      var waiting := Get(inbox, fd);
      if (sticky && fd in recvFailed) || waiting == [] {
        ret :| -1 <= ret <= 0;
      } else {
        ret :| -1 <= ret <= n && ret <= |waiting| && (!faulty ==> ret > 0);
      }
      last := ret;
      if ret > 0 {
        forall i | 0 <= i < ret {
          dst[off + i] := waiting[i];
        }
        inbox := inbox[fd := waiting[ret..]];
      } else {
        recvFailed := recvFailed + {fd};
      }
    }
  }
}
