/** A whole conversation: what a list of messages looks like on the wire and what the handler reads back. */
module PscStream {
  import opened Words
  import opened Sockets
  import opened SkipCalls
  import opened PscMsg

  /** The largest message body a client's buffer takes. */
  const RX_BUFFER := 8 + 200000

  predicate AllFit(ms: seq<Message>) { forall i :: 0 <= i < |ms| ==> Fits(ms[i]) }

  /** The byte stream of the messages from the k-th on. */
  function Stream(ms: seq<Message>, k: nat): seq<Byte>
    requires AllFit(ms) && k <= |ms|
    decreases |ms| - k
  {
    if k == |ms| then [] else Frame(ms[k]) + Stream(ms, k + 1)
  }

  /** The message with its body cut to the size of the buffer. */
  function Cut(m: Message): Message
    requires Fits(m)
  {
    m.(body := m.body[..Min(|m.body|, RX_BUFFER)])
  }

  lemma CutIs(m: Message)
    requires Fits(m)
    ensures Cut(m).id == m.id
    ensures Cut(m).body == if |m.body| <= 200008 then m.body else m.body[..200008]
  {
  }

  // ----- reading back a framed message -----

  lemma FrameHeads(m: Message)
    requires Fits(m)
    ensures GoodHeader(Frame(m)[..HEADER_LEN]) && IdOf(Frame(m)) == m.id && LenOf(Frame(m)) == |m.body|
    ensures Frame(m)[HEADER_LEN..] == m.body
  {
    Bytes16RoundTrip(m.id);
    Bytes32RoundTrip(|m.body|);
    assert Frame(m)[2..4] == Bytes16(m.id) && Frame(m)[4..8] == Bytes32(|m.body|);
    hide Value16, Value32, Bytes16, Bytes32;
  }

  /** The first bytes of s, when they reach a frame's header, are read as that frame's. */
  lemma PrefixHeads(s: seq<Byte>, m: Message, rest: seq<Byte>)
    requires Fits(m) && s <= Frame(m) + rest && HEADER_LEN <= |s|
    ensures GoodHeader(s[..HEADER_LEN]) && IdOf(s) == m.id && LenOf(s) == |m.body|
    ensures WholeMessage(s) <==> Frame(m) <= s
  {
    FrameHeads(m);
    assert s[..HEADER_LEN] == Frame(m)[..HEADER_LEN];
    assert s[2..4] == Frame(m)[2..4] && s[4..8] == Frame(m)[4..8];
    hide Frame, Value16, Value32;
    if WholeMessage(s) {
      assert s[..|Frame(m)|] == Frame(m);
    }
  }

  lemma PrefixDrops(s: seq<Byte>, f: seq<Byte>, rest: seq<Byte>)
    requires f <= s <= f + rest
    ensures s[|f|..] <= rest && (s == f + rest ==> s[|f|..] == rest)
  {
    assert forall i :: 0 <= i < |s| - |f| ==> s[|f|..][i] == (f + rest)[|f| + i];
  }

  /** What a receiver finds at the front of the stream from the k-th message on, or of a piece of it. */
  lemma NextMessage(all: seq<Byte>, ms: seq<Message>, k: nat)
    requires AllFit(ms) && k <= |ms| && all <= Stream(ms, k)
    ensures HEADER_LEN <= |all| ==> GoodHeader(all[..HEADER_LEN])
    ensures all == Stream(ms, k) && k < |ms| ==> WholeMessage(all)
    ensures WholeMessage(all) ==>
              && k < |ms| && IdOf(all) == ms[k].id && LenOf(all) == |ms[k].body|
              && all[HEADER_LEN..HEADER_LEN + LenOf(all)] == ms[k].body
              && all[HEADER_LEN + LenOf(all)..] <= Stream(ms, k + 1)
              && (all == Stream(ms, k) ==> all[HEADER_LEN + LenOf(all)..] == Stream(ms, k + 1))
  {
    if HEADER_LEN <= |all| {
      PrefixHeads(all, ms[k], Stream(ms, k + 1));
      hide IdOf, LenOf;
      if WholeMessage(all) {
        PrefixDrops(all, Frame(ms[k]), Stream(ms, k + 1));
        FrameHeads(ms[k]);
        assert all[HEADER_LEN..HEADER_LEN + |ms[k].body|] == Frame(ms[k])[HEADER_LEN..];
      }
    }
  }

  // ----- both ends -----

  /** Sends the messages in order, stopping at the first failure. */
  method SendMsgs(net: Network, fd: int, ms: seq<Message>) returns (status: Status, ghost moved: nat)
    requires AllFit(ms)
    modifies net`sent, net`last
    ensures moved <= |Stream(ms, 0)| && (status.Ok? <==> moved == |Stream(ms, 0)|)
    ensures Get(net.sent, fd) == Get(old(net.sent), fd) + Stream(ms, 0)[..moved]
    ensures !status.Ok? ==> net.faulty
  {
    hide Frame, Get, Put;
    status, moved := Ok, 0;
    for k := 0 to |ms|
      invariant status.Ok? && moved + |Stream(ms, k)| == |Stream(ms, 0)|
      invariant Get(net.sent, fd) == Get(old(net.sent), fd) + Stream(ms, 0)[..moved]
      invariant Stream(ms, 0)[moved..] == Stream(ms, k)
    {
      ghost var part;
      GetPut(net.sent, fd);
      status, part := SendMsg(net, fd, ms[k]);
      Advance(Stream(ms, 0), moved, Frame(ms[k]), Stream(ms, k + 1), part);
      moved := moved + part;
      if !status.Ok? {
        return;
      }
    }
  }

  lemma Advance(all: seq<Byte>, at: nat, f: seq<Byte>, rest: seq<Byte>, part: nat)
    requires at <= |all| && all[at..] == f + rest && part <= |f|
    ensures all[..at] + f[..part] == all[..at + part]
    ensures part == |f| ==> all[at + part..] == rest
  {
    assert forall i :: 0 <= i < |f| + |rest| ==> all[at + i] == (f + rest)[i];
  }

  /** One received message moves the stream on by one, when no failed chunk had moved bytes of it. */
  lemma {:induction false} ServesNext(
      all: seq<Byte>, left: seq<Byte>, id: Word16, kept: seq<Byte>, calls: seq<Call>, ms: seq<Message>, k: nat)
    requires AllFit(ms) && k <= |ms| && all <= Stream(ms, k)
    requires Received(all, left, id, kept, RX_BUFFER, calls) && (calls != [] ==> Whole(calls[|calls| - 1])) && InStep(calls)
    ensures k < |ms| && Message(id, kept) == Cut(ms[k]) && left <= Stream(ms, k + 1)
    ensures all == Stream(ms, k) ==> left == Stream(ms, k + 1)
  {
    hide Stream, GoodHeader, IdOf, LenOf, InStep, Skips, Total, Whole;
    NextMessage(all, ms, k);
    InStepIff(all, left, id, kept, RX_BUFFER, calls);
    assert kept == all[HEADER_LEN..HEADER_LEN + LenOf(all)][..|kept|];
  }

  lemma Consumes(all: seq<Byte>, left: seq<Byte>, id: Word16, kept: seq<Byte>, calls: seq<Call>)
    requires Received(all, left, id, kept, RX_BUFFER, calls)
    ensures |left| < |all|
  {
    hide GoodHeader, IdOf, LenOf, Skips, Total;
  }

  /** Only a message whose body exceeds the buffer by more than a chunk can leave the stream out of step. */
  lemma {:induction false} SlipsOnLong(
      all: seq<Byte>, left: seq<Byte>, id: Word16, kept: seq<Byte>, calls: seq<Call>, ms: seq<Message>, k: nat)
    requires AllFit(ms) && k <= |ms| && all <= Stream(ms, k)
    requires Received(all, left, id, kept, RX_BUFFER, calls) && (calls != [] ==> Whole(calls[|calls| - 1])) && !InStep(calls)
    ensures k < |ms| && LongerThanSkip(ms[k]) && Message(id, kept) == Cut(ms[k])
  {
    hide Stream, GoodHeader, IdOf, LenOf, Total, Whole;
    NextMessage(all, ms, k);
    InStepIff(all, left, id, kept, RX_BUFFER, calls);
    assert kept == all[HEADER_LEN..HEADER_LEN + LenOf(all)][..|kept|];
  }

  predicate LongerThanSkip(m: Message) { |m.body| > RX_BUFFER + SKIP_CHUNK }

  /** Of the messages received, none before the i-th left the stream out of step. */
  predicate InStepBefore(skips: seq<seq<Call>>, i: int) { forall k :: 0 <= k < i && k < |skips| ==> InStep(skips[k]) }

  /** The i-th message received is the first to leave the stream out of step, and it is a long one. */
  predicate FirstSlip(skips: seq<seq<Call>>, ms: seq<Message>, i: nat) {
    i < |skips| && i < |ms| && InStepBefore(skips, i) && !InStep(skips[i]) && LongerThanSkip(ms[i])
  }

  /** Up to and including the first one that leaves the stream out of step, the messages passed on are those sent. */
  predicate Passes(log: seq<Message>, skips: seq<seq<Call>>, ms: seq<Message>)
    requires AllFit(ms) && |skips| == |log|
  {
    forall i :: 0 <= i < |log| && InStepBefore(skips, i) ==> i < |ms| && log[i] == Cut(ms[i])
  }

  lemma {:induction false} PassesAll(log: seq<Message>, skips: seq<seq<Call>>, ms: seq<Message>)
    requires AllFit(ms) && |skips| == |log| && Passes(log, skips, ms) && InStepBefore(skips, |skips|)
    ensures |log| <= |ms| && forall i :: 0 <= i < |log| ==> log[i] == Cut(ms[i])
  {
    hide InStep;
    if log != [] {
      assert InStepBefore(skips, |log| - 1);
    }
    forall i | 0 <= i < |log|
      ensures log[i] == Cut(ms[i])
    {
      assert InStepBefore(skips, i);
    }
  }

  /** Where the i-th message passed on began: each consumed a header, what was kept, and what was discarded. */
  function Offset(log: seq<Message>, skips: seq<seq<Call>>, i: nat): nat
    requires i <= |log| == |skips|
  {
    if i == 0 then 0
    else Offset(log, skips, i - 1) + HEADER_LEN + |log[i - 1].body| + Total(skips[i - 1], 0)
  }

  /** The i-th message passed on is what the bytes hold from where the one before it ended. */
  predicate ReadAt(all: seq<Byte>, log: seq<Message>, skips: seq<seq<Call>>, i: nat)
    requires i < |log| == |skips|
  {
    var start, end := Offset(log, skips, i), Offset(log, skips, i + 1);
    start <= end <= |all| && Received(all[start..], all[end..], log[i].id, log[i].body, RX_BUFFER, skips[i])
  }

  /** The messages passed on are what the bytes hold, one after the other, and the rest is left. */
  predicate Reads(all: seq<Byte>, log: seq<Message>, skips: seq<seq<Call>>, left: seq<Byte>)
    requires |log| == |skips|
  {
    && (forall i :: 0 <= i < |log| ==> ReadAt(all, log, skips, i))
    && Offset(log, skips, |log|) <= |all| && left == all[Offset(log, skips, |log|)..]
  }

  lemma {:induction false} OffsetAppend(log: seq<Message>, skips: seq<seq<Call>>, m: Message, calls: seq<Call>, i: nat)
    requires i <= |log| == |skips|
    ensures Offset(log + [m], skips + [calls], i) == Offset(log, skips, i)
  {
    if i > 0 {
      OffsetAppend(log, skips, m, calls, i - 1);
    }
  }

  lemma {:induction false} ReadsAppend(
      all: seq<Byte>, log: seq<Message>, skips: seq<seq<Call>>, mid: seq<Byte>, m: Message, calls: seq<Call>, left: seq<Byte>)
    requires |log| == |skips| && Reads(all, log, skips, mid) && Received(mid, left, m.id, m.body, RX_BUFFER, calls)
    ensures Reads(all, log + [m], skips + [calls], left)
  {
    hide Skips, Total, GoodHeader, IdOf, LenOf;
    var log', skips' := log + [m], skips + [calls];
    OffsetAppend(log, skips, m, calls, |log|);
    var end := Offset(log, skips, |log|);
    assert Offset(log', skips', |log| + 1) == end + HEADER_LEN + |m.body| + Total(calls, 0);
    assert left == all[Offset(log', skips', |log| + 1)..];
    hide Received, Offset;
    forall i | 0 <= i < |log'|
      ensures ReadAt(all, log', skips', i)
    {
      if i < |log| {
        assert ReadAt(all, log, skips, i);
        OffsetAppend(log, skips, m, calls, i);
        OffsetAppend(log, skips, m, calls, i + 1);
      }
    }
  }

  lemma CleanIsInStep(calls: seq<Call>)
    ensures Clean(calls) ==> InStep(calls)
  {
  }

  lemma StepBefore(skips: seq<seq<Call>>, calls: seq<Call>, ms: seq<Message>)
    ensures InStepBefore(skips + [calls], |skips| + 1) <==> InStepBefore(skips, |skips|) && InStep(calls)
    ensures forall i :: 0 <= i <= |skips| ==> (InStepBefore(skips + [calls], i) <==> InStepBefore(skips, i))
    ensures (exists i :: FirstSlip(skips, ms, i)) ==> exists i :: FirstSlip(skips + [calls], ms, i)
    ensures InStepBefore(skips, |skips|) && !InStep(calls) && |skips| < |ms| && LongerThanSkip(ms[|skips|]) ==>
              FirstSlip(skips + [calls], ms, |skips|)
  {
    hide InStep, LongerThanSkip;
    if i :| FirstSlip(skips, ms, i) {
      assert FirstSlip(skips + [calls], ms, i);
    }
    assert forall k :: 0 <= k < |skips| ==> (skips + [calls])[k] == skips[k];
    assert (skips + [calls])[|skips|] == calls;
  }

  /** The invariant of the handler's loop, with all that is still to be received. */
  ghost predicate Serving(ms: seq<Message>, log: seq<Message>, skips: seq<seq<Call>>, all: seq<Byte>)
    requires AllFit(ms) && |skips| == |log|
  {
    && Passes(log, skips, ms)
    && if InStepBefore(skips, |skips|) then |log| <= |ms| && all <= Stream(ms, |log|)
       else exists i :: FirstSlip(skips, ms, i)
  }

  lemma Begins(all: seq<Byte>, ms: seq<Message>)
    requires AllFit(ms) && all <= Stream(ms, 0)
    ensures Serving(ms, [], [], all) && Reads(all, [], [], all) && InStepBefore([], 0)
  {
  }

  /** What the next receive finds, as long as the stream is in step. */
  lemma NextServed(ms: seq<Message>, log: seq<Message>, skips: seq<seq<Call>>, all: seq<Byte>)
    requires AllFit(ms) && |skips| == |log|
    ensures Serving(ms, log, skips, all) && InStepBefore(skips, |skips|) ==>
              && (HEADER_LEN <= |all| ==> GoodHeader(all[..HEADER_LEN]))
              && (|log| < |ms| && all == Stream(ms, |log|) ==> WholeMessage(all))
  {
    hide Stream, WholeMessage, GoodHeader, InStep;
    if Serving(ms, log, skips, all) && InStepBefore(skips, |skips|) {
      NextMessage(all, ms, |log|);
    }
  }

  lemma {:induction false} ServesOne(
      sent: seq<Byte>, all: seq<Byte>, left: seq<Byte>, ms: seq<Message>, log: seq<Message>, skips: seq<seq<Call>>,
      m: Message, calls: seq<Call>)
    requires AllFit(ms) && |skips| == |log| && Serving(ms, log, skips, all) && Reads(sent, log, skips, all)
    requires Received(all, left, m.id, m.body, RX_BUFFER, calls) && (calls != [] ==> Whole(calls[|calls| - 1]))
    ensures Serving(ms, log + [m], skips + [calls], left) && Reads(sent, log + [m], skips + [calls], left)
    ensures InStepBefore(skips + [calls], |skips| + 1) <==> InStepBefore(skips, |skips|) && InStep(calls)
    ensures InStepBefore(skips + [calls], |skips| + 1) ==> |log| < |ms|
    ensures InStepBefore(skips + [calls], |skips| + 1) && all == Stream(ms, |log|) ==> left == Stream(ms, |log| + 1)
    ensures |left| < |all|
  {
    hide Stream, Received, Whole, InStep, LongerThanSkip, Cut, Reads, InStepBefore;
    Consumes(all, left, m.id, m.body, calls);
    ReadsAppend(sent, log, skips, all, m, calls, left);
    StepBefore(skips, calls, ms);
    if InStepBefore(skips, |skips|) {
      if InStep(calls) {
        ServesNext(all, left, m.id, m.body, calls, ms, |log|);
      } else {
        SlipsOnLong(all, left, m.id, m.body, calls, ms, |log|);
      }
    }
  }

  /** What the invariant says when the loop ends. */
  lemma {:induction false} Ends(sent: seq<Byte>, ms: seq<Message>, log: seq<Message>, skips: seq<seq<Call>>, all: seq<Byte>)
    requires AllFit(ms) && |skips| == |log| && Serving(ms, log, skips, all) && Reads(sent, log, skips, all)
    ensures Passes(log, skips, ms) && forall i :: 0 <= i < |log| ==> ReadAt(sent, log, skips, i)
    ensures !InStepBefore(skips, |skips|) ==> exists i :: FirstSlip(skips, ms, i)
    ensures (forall i :: 0 <= i < |ms| ==> !LongerThanSkip(ms[i])) || InStepBefore(skips, |skips|) ==>
              |log| <= |ms| && forall i :: 0 <= i < |log| ==> log[i] == Cut(ms[i])
  {
    hide Stream, InStep, LongerThanSkip, ReadAt, InStepBefore;
    if InStepBefore(skips, |skips|) {
      PassesAll(log, skips, ms);
    }
  }

  /**
   * The handler's loop: receive a message, pass it on, until receiving fails. On the stream of any list
   * of messages, or any initial piece of it, however it is chunked and whatever receives fail or recover,
   * it passes on that list in order, bodies cut to the buffer, up to and including the first message of
   * which a failed chunk had moved bytes. Such a message exceeds the buffer by more than 128 bytes. On a
   * network that does not fail the whole list is passed on. On every network each message passed on is
   * what the bytes hold from where the one before it ended; with the log come the calls that discarded
   * the rest of each.
   */
  method ServeClient(net: Network, fd: int, rxbuf: array<Byte>, ghost ms: seq<Message>)
    returns (status: Status, log: seq<Message>, ghost skips: seq<seq<Call>>)
    requires rxbuf.Length == RX_BUFFER
    requires AllFit(ms) && Get(net.inbox, fd) <= Stream(ms, 0)
    modifies net`inbox, net`recvFailed, net`last, rxbuf
    ensures !status.Ok? && |skips| == |log| && Passes(log, skips, ms)
    ensures forall i :: 0 <= i < |log| ==> ReadAt(Get(old(net.inbox), fd), log, skips, i)
    ensures status.BadHeader? ==> !InStepBefore(skips, |skips|)
    ensures !InStepBefore(skips, |skips|) ==> exists i :: FirstSlip(skips, ms, i)
    ensures (forall i :: 0 <= i < |ms| ==> !LongerThanSkip(ms[i])) ==>
              |log| <= |ms| && forall i :: 0 <= i < |log| ==> log[i] == Cut(ms[i])
    ensures net.sticky || !net.faulty ==> InStepBefore(skips, |skips|)
    ensures !net.faulty && !(net.sticky && fd in old(net.recvFailed)) && Get(old(net.inbox), fd) == Stream(ms, 0) ==>
              |log| == |ms|
  {
    hide Stream, WholeMessage, GoodHeader, Received, Clean, Overruns, Get, InStep, InStepBefore, ReadAt, Reads, Serving, Passes;
    log, skips := [], [];
    ghost var sent := Get(net.inbox, fd);
    Begins(sent, ms);
    while true
      invariant |skips| == |log| && Serving(ms, log, skips, Get(net.inbox, fd)) && Reads(sent, log, skips, Get(net.inbox, fd))
      invariant InStepBefore(skips, |skips|) && sent == Stream(ms, 0) ==> |log| <= |ms| && Get(net.inbox, fd) == Stream(ms, |log|)
      invariant net.sticky || !net.faulty ==> InStepBefore(skips, |skips|) && net.recvFailed == old(net.recvFailed)
      decreases |Get(net.inbox, fd)|
    {
      ghost var all, calls := Get(net.inbox, fd), [];
      NextServed(ms, log, skips, all);
      var id, len;
      status, id, len, calls := RecvMsg(net, fd, rxbuf, RX_BUFFER);
      if !status.Ok? {
        Ends(sent, ms, log, skips, all);
        break;
      }
      CleanIsInStep(calls);
      ServesOne(sent, all, Get(net.inbox, fd), ms, log, skips, Message(id, rxbuf[..len]), calls);
      log, skips := log + [Message(id, rxbuf[..len])], skips + [calls];
    }
  }
}
