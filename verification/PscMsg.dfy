/** Framed messages over sockets that move data in pieces. */
module PscMsg {
  import opened Words
  import opened Sockets
  import opened SkipCalls

  /** The result codes: success, the network's own error, no connection, or a header that is none. */
  datatype Status = Ok | Errno | NotConnected | BadHeader

  const HEADER_LEN := 8

  datatype Message = Message(id: Word16, body: seq<Byte>)

  // ----- the wire format -----

  function Bytes16(x: Word16): (b: seq<Byte>)
    ensures |b| == 2
  {
    [Wrap8((x as int) / 0x100), Wrap8(x)]
  }

  function Bytes32(x: Word32): (b: seq<Byte>)
    ensures |b| == 4
  {
    [Wrap8((x as int) / 0x100_0000), Wrap8((x as int) / 0x1_0000), Wrap8((x as int) / 0x100), Wrap8(x)]
  }

  function Value16(b: seq<Byte>): Word16
    requires |b| == 2
  {
    (b[0] as int) * 0x100 + (b[1] as int)
  }

  function Value32(b: seq<Byte>): Word32
    requires |b| == 4
  {
    (b[0] as int) * 0x100_0000 + (b[1] as int) * 0x1_0000 + (b[2] as int) * 0x100 + (b[3] as int)
  }

  lemma Bytes16RoundTrip(x: Word16)
    ensures Value16(Bytes16(x)) == x
  {
  }

  lemma Bytes32RoundTrip(x: Word32)
    ensures Value32(Bytes32(x)) == x
  {
    var y := (x as int) / 0x100;
    assert x == y * 0x100 + x % 0x100;
    assert (x as int) / 0x1_0000 == y / 0x100 && y == y / 0x100 * 0x100 + y % 0x100;
    assert (x as int) / 0x100_0000 == y / 0x100 / 0x100 < 0x100;
  }

  function Header(id: Word16, len: Word32): (h: seq<Byte>)
    ensures |h| == HEADER_LEN
  {
    ['P' as Byte, 'S' as Byte] + Bytes16(id) + Bytes32(len)
  }

  /** A message short enough for its length to fit the header. */
  predicate Fits(m: Message) { |m.body| < 0x1_0000_0000 }

  function Frame(m: Message): (f: seq<Byte>)
    requires Fits(m)
    ensures |f| == HEADER_LEN + |m.body|
  {
    Header(m.id, |m.body|) + m.body
  }

  predicate GoodHeader(h: seq<Byte>) { |h| == HEADER_LEN && h[0] == 'P' as int && h[1] == 'S' as int }

  function IdOf(s: seq<Byte>): Word16
    requires HEADER_LEN <= |s|
  {
    Value16(s[2..4])
  }

  function LenOf(s: seq<Byte>): Word32
    requires HEADER_LEN <= |s|
  {
    Value32(s[4..8])
  }

  /** The bytes begin with a good header and the whole body it announces. */
  predicate WholeMessage(s: seq<Byte>) {
    HEADER_LEN <= |s| && GoodHeader(s[..HEADER_LEN]) && HEADER_LEN + LenOf(s) <= |s|
  }

  /** A frame byte by byte: the two marks, then identifier and length with the byte that counts most first. */
  lemma FrameBytes(m: Message, k: nat)
    requires Fits(m)
    ensures var f := Frame(m);
            && |f| == 8 + |m.body| && f[0] == 0x50 && f[1] == 0x53
            && f[2] as int * 0x100 + f[3] as int == m.id
            && f[4] as int * 0x100_0000 + f[5] as int * 0x1_0000 + f[6] as int * 0x100 + f[7] as int == |m.body|
            && (k < |m.body| ==> f[8 + k] == m.body[k])
  {
    Bytes16RoundTrip(m.id);
    Bytes32RoundTrip(|m.body|);
    hide Bytes16, Bytes32;
    assert Frame(m)[2..4] == Bytes16(m.id) && Frame(m)[4..8] == Bytes32(|m.body|);
  }

  /** A header is read the same way. */
  lemma HeaderBytes(s: seq<Byte>)
    requires 8 <= |s|
    ensures GoodHeader(s[..8]) <==> s[0] == 0x50 && s[1] == 0x53
    ensures IdOf(s) == s[2] as int * 0x100 + s[3] as int
    ensures LenOf(s) == s[4] as int * 0x100_0000 + s[5] as int * 0x1_0000 + s[6] as int * 0x100 + s[7] as int
  {
  }

  // ----- sending -----

  /** Sends the whole buffer or fails, having sent a proper prefix of it. */
  method SendAll(net: Network, fd: int, buf: seq<Byte>) returns (status: Status, ghost moved: nat)
    modifies net`sent, net`last
    ensures !status.BadHeader? && (status.Errno? ==> net.last < 0) && (status.NotConnected? ==> net.last == 0)
    ensures moved <= |buf| && (status.Ok? <==> moved == |buf|)
    ensures net.sent == Put(old(net.sent), fd, buf[..moved])
    ensures !status.Ok? ==> net.faulty
  {
    var rest := buf;
    moved := 0;
    while rest != []
      invariant moved <= |buf| && rest == buf[moved..]
      invariant net.sent == Put(old(net.sent), fd, buf[..moved])
      decreases |rest|
    {
      var ret := net.Send(fd, rest);
      if ret < 0 {
        return Errno, moved;
      } else if ret == 0 {
        return NotConnected, moved;
      }
      PutPut(old(net.sent), fd, buf[..moved], rest[..ret]);
      assert buf[..moved] + rest[..ret] == buf[..moved + ret];
      rest, moved := rest[ret..], moved + ret;
    }
    status := Ok;
  }

  /** Sends header and body; on failure a proper prefix of the frame has gone out, on success all of it. */
  method SendMsg(net: Network, fd: int, m: Message) returns (status: Status, ghost moved: nat)
    requires Fits(m)
    modifies net`sent, net`last
    ensures !status.BadHeader? && (status.Errno? ==> net.last < 0) && (status.NotConnected? ==> net.last == 0)
    ensures moved <= |Frame(m)| && (status.Ok? <==> moved == |Frame(m)|)
    ensures net.sent == Put(old(net.sent), fd, Frame(m)[..moved])
    ensures !status.Ok? ==> net.faulty
  {
    var head := Header(m.id, |m.body|);
    ghost var headMoved, bodyMoved;
    status, headMoved := SendAll(net, fd, head);
    moved := headMoved;
    assert head[..HEADER_LEN] == head && Frame(m)[..moved] == head[..moved];
    if !status.Ok? {
      return;
    }
    status, bodyMoved := SendAll(net, fd, m.body);
    moved := HEADER_LEN + bodyMoved;
    assert Frame(m)[..moved] == head + m.body[..bodyMoved];
    PutPut(old(net.sent), fd, head, m.body[..bodyMoved]);
  }

  // ----- receiving -----

  /**
   * Fills the first len bytes of buf, or fails with the first moved of them filled. Everything moved is
   * consumed, and nothing behind it is touched.
   */
  method RecvAll(net: Network, fd: int, buf: array<Byte>, len: nat) returns (status: Status, ghost moved: nat)
    requires len <= buf.Length
    modifies net`inbox, net`recvFailed, net`last, buf
    ensures (status.Errno? ==> net.last < 0) && (status.NotConnected? ==> net.last == 0)
    ensures !status.BadHeader? && moved <= len && moved <= |Get(old(net.inbox), fd)|
    ensures status.Ok? <==> moved == len
    ensures Get(net.inbox, fd) == Get(old(net.inbox), fd)[moved..]
    ensures buf[..moved] == Get(old(net.inbox), fd)[..moved] && buf[moved..] == old(buf[moved..])
    ensures net.recvFailed == old(net.recvFailed) + if status.Ok? then {} else {fd}
    ensures net.sticky && fd in old(net.recvFailed) ==> moved == 0
    ensures !status.Ok? ==> net.faulty || (net.sticky && fd in old(net.recvFailed)) || Get(net.inbox, fd) == []
  {
    moved := 0;
    var done := 0;
    ghost var all, was := Get(net.inbox, fd), buf[..];
    while done < len
      invariant moved == done <= len && done <= |all|
      invariant Get(net.inbox, fd) == all[done..] && net.recvFailed == old(net.recvFailed)
      invariant buf[..done] == all[..done] && buf[done..] == was[done..]
      invariant net.sticky && fd in old(net.recvFailed) ==> done == 0
    {
      var ret := net.Recv(fd, buf, done, len - done);
      if ret < 0 {
        return Errno, moved;
      } else if ret == 0 {
        return NotConnected, moved;
      }
      assert all[..done + ret] == all[..done] + all[done..][..ret];
      assert was[done..][ret..] == was[done + ret..];
      done, moved := done + ret, done + ret;
    }
    status := Ok;
  }

  /**
   * Discards len bytes in chunks of at most 128. When a chunk fails the last call asks for all that is
   * left, although the buffer is no longer. The array stands for the stack from the local buffer on, of
   * which the buffer is the first 128 bytes; spill is what was written behind it.
   */
  method RecvSkip(net: Network, fd: int, len: nat) returns (status: Status, ghost spill: seq<Byte>, ghost calls: seq<Call>)
    modifies net`inbox, net`recvFailed, net`last
    ensures (status.Errno? ==> net.last < 0) && (status.NotConnected? ==> net.last == 0)
    ensures !status.BadHeader? && Skips(calls, 0, len)
    ensures status.Ok? <==> Whole(calls[|calls| - 1])
    ensures calls[|calls| - 1].moved <= Total(calls, 0) <= |Get(old(net.inbox), fd)|
    ensures Get(net.inbox, fd) == Get(old(net.inbox), fd)[Total(calls, 0)..]
    ensures spill == Spill(calls, Get(old(net.inbox), fd)) && (spill != [] <==> Overruns(calls))
    ensures net.sticky ==> FailuresStay(calls) && spill == []
    ensures status.Ok? && (net.sticky || !net.faulty) ==> Clean(calls) && !Overruns(calls)
    ensures status.Ok? && Clean(calls) ==> net.recvFailed == old(net.recvFailed) && Total(calls, 0) == len
    ensures !net.faulty && !(net.sticky && fd in old(net.recvFailed)) && len <= |Get(old(net.inbox), fd)| ==> status.Ok?
  {
    hide Skips, Total, Clean, Overruns, FailuresStay, Progress, Spill, Get;
    var stack := new Byte[Max(len, SKIP_CHUNK)](_ => 0);
    var rest: nat, going := len, true;
    ghost var all, left := Get(net.inbox, fd), Get(net.inbox, fd);
    ghost var chunks: seq<Call>, failed: nat, moved: nat := [], 0, 0;
    calls := [];
    Begins(len, all);
    while going && rest > SKIP_CHUNK
      invariant rest <= len && Progress(chunks, going, failed, calls, len, rest, all, left)
      invariant left == Get(net.inbox, fd) && (going ==> net.recvFailed == old(net.recvFailed))
      invariant !going ==> rest > SKIP_CHUNK && fd in net.recvFailed
      invariant !going && !net.faulty ==> left == [] || (net.sticky && fd in old(net.recvFailed))
      decreases going, rest
    {
      ForgetFailed(chunks, failed, calls, len, rest, all, left);
      var chunk;
      chunk, moved := RecvAll(net, fd, stack, SKIP_CHUNK);
      Goes(chunks, len, rest, all, left, moved);
      calls, left := calls + [Call(SKIP_CHUNK, moved)], left[moved..];
      going := chunk.Ok?;
      if going {
        chunks, rest := calls, rest - SKIP_CHUNK;
      } else {
        failed := moved;
      }
    }
    if !going && left == [] {
      Starved(chunks, failed, calls, len, rest, all);
    }
    status, moved := RecvAll(net, fd, stack, rest);
    LastCallShape(chunks, going, failed, calls, len, rest, all, left, moved);
    LastCallMoves(chunks, going, failed, calls, len, rest, all, left, moved);
    calls := calls + [Call(rest, moved)];
    spill := if moved > SKIP_CHUNK then stack[..moved][SKIP_CHUNK..] else [];
  }

  /** Reads a header: its identifier and length, or an error when the two marks are not there. */
  method RecvHead(net: Network, fd: int) returns (status: Status, id: Word16, len: Word32)
    modifies net`inbox, net`recvFailed, net`last
    ensures (status.Errno? ==> net.last < 0) && (status.NotConnected? ==> net.last == 0)
    ensures status.Ok? || status.BadHeader? ==>
              && HEADER_LEN <= |Get(old(net.inbox), fd)| && net.recvFailed == old(net.recvFailed)
              && Get(net.inbox, fd) == Get(old(net.inbox), fd)[HEADER_LEN..]
              && (status.Ok? <==> GoodHeader(Get(old(net.inbox), fd)[..HEADER_LEN]))
    ensures status.Ok? ==> id == IdOf(Get(old(net.inbox), fd)) && len == LenOf(Get(old(net.inbox), fd))
    ensures !status.Ok? && !status.BadHeader? ==> net.recvFailed == old(net.recvFailed) + {fd}
    ensures !net.faulty && !(net.sticky && fd in old(net.recvFailed)) && HEADER_LEN <= |Get(old(net.inbox), fd)| ==>
              status.Ok? || status.BadHeader?
  {
    id, len := 0, 0;
    var buf := new Byte[HEADER_LEN](_ => 0);
    ghost var moved;
    status, moved := RecvAll(net, fd, buf, HEADER_LEN);
    if !status.Ok? {
      return;
    }
    ghost var all := Get(old(net.inbox), fd);
    assert buf[..] == buf[..HEADER_LEN] == all[..HEADER_LEN];
    assert buf[..][2..4] == all[2..4] && buf[..][4..8] == all[4..8];
    if buf[0] != 'P' as int || buf[1] != 'S' as int {
      status := BadHeader;
      return;
    }
    id, len := IdOf(buf[..]), LenOf(buf[..]);
  }

  /** A message of which maxLen bytes are kept has been received, and the calls discarded the others. */
  predicate Received(all: seq<Byte>, left: seq<Byte>, id: Word16, kept: seq<Byte>, maxLen: nat, calls: seq<Call>) {
    && HEADER_LEN <= |all| && GoodHeader(all[..HEADER_LEN]) && id == IdOf(all)
    && |kept| == Min(LenOf(all), maxLen) && HEADER_LEN + |kept| + Total(calls, 0) <= |all|
    && kept == all[HEADER_LEN..HEADER_LEN + |kept|]
    && left == all[HEADER_LEN + |kept| + Total(calls, 0)..]
    && if |kept| < LenOf(all) then Skips(calls, 0, LenOf(all) - |kept|) else calls == []
  }

  /**
   * Receives one message into buf, keeping at most maxLen bytes of its body and discarding the others.
   * Unless a receive failed and later recovered while discarding, exactly the header and the whole body
   * are consumed, whatever the length.
   */
  method RecvMsg(net: Network, fd: int, buf: array<Byte>, maxLen: Word32)
    returns (status: Status, id: Word16, len: Word32, ghost calls: seq<Call>)
    requires maxLen <= buf.Length
    modifies net`inbox, net`recvFailed, net`last, buf
    ensures status.Ok? ==>
              len <= buf.Length && Received(Get(old(net.inbox), fd), Get(net.inbox, fd), id, buf[..len], maxLen, calls)
    ensures (status.Errno? ==> net.last < 0) && (status.NotConnected? ==> net.last == 0)
    ensures status.Ok? && calls != [] ==> Whole(calls[|calls| - 1])
    ensures status.Ok? && (net.sticky || !net.faulty) ==> Clean(calls) && !Overruns(calls)
    ensures status.Ok? && Clean(calls) ==> net.recvFailed == old(net.recvFailed)
    ensures status.BadHeader? ==>
              HEADER_LEN <= |Get(old(net.inbox), fd)| && !GoodHeader(Get(old(net.inbox), fd)[..HEADER_LEN])
    ensures !net.faulty && !(net.sticky && fd in old(net.recvFailed)) && WholeMessage(Get(old(net.inbox), fd)) ==>
              status.Ok?
  {
    hide IdOf, LenOf, GoodHeader, Skips, Total, Clean, Overruns, FailuresStay, Received, Get;
    NoCalls();
    ghost var all := Get(net.inbox, fd);
    var fullLen;
    status, id, fullLen := RecvHead(net, fd);
    len, calls := maxLen, [];
    if !status.Ok? {
      return;
    }
    var kept := Min(fullLen, maxLen);
    ghost var moved, spill;
    status, moved := RecvAll(net, fd, buf, kept);
    if !status.Ok? {
      return;
    }
    ghost var left := Get(net.inbox, fd);
    if kept < fullLen {
      status, spill, calls := RecvSkip(net, fd, fullLen - kept);
    }
    len := kept;
    if status.Ok? {
      Assembled(all, left, Get(net.inbox, fd), id, buf[..len], maxLen, calls);
    }
  }

  lemma Assembled(
      all: seq<Byte>, mid: seq<Byte>, left: seq<Byte>, id: Word16, kept: seq<Byte>, maxLen: nat, calls: seq<Call>)
    requires HEADER_LEN <= |all| && GoodHeader(all[..HEADER_LEN]) && id == IdOf(all)
    requires |kept| == Min(LenOf(all), maxLen) && HEADER_LEN + |kept| <= |all|
    requires kept == all[HEADER_LEN..][..|kept|] && mid == all[HEADER_LEN..][|kept|..]
    requires Total(calls, 0) <= |mid| && left == mid[Total(calls, 0)..]
    requires if |kept| < LenOf(all) then Skips(calls, 0, LenOf(all) - |kept|) else calls == []
    ensures Received(all, left, id, kept, maxLen, calls)
  {
    hide GoodHeader, IdOf, LenOf, Skips, Total;
  }

  /** A whole message is consumed exactly when no failed chunk had moved bytes of it; else the next one is cut. */
  lemma {:induction false} InStepIff(
      all: seq<Byte>, left: seq<Byte>, id: Word16, kept: seq<Byte>, maxLen: nat, calls: seq<Call>)
    requires Received(all, left, id, kept, maxLen, calls) && (calls != [] ==> Whole(calls[|calls| - 1]))
    ensures WholeMessage(all)
    ensures left == all[HEADER_LEN + LenOf(all)..] <==> InStep(calls)
  {
    hide IdOf, GoodHeader;
    if |kept| < LenOf(all) {
      SkipConsumes(calls, 0, LenOf(all) - |kept|);
    }
  }
}
