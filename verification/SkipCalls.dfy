/**
 * What discarding the rest of a message body does, call by call. Each call is one receive of a fixed
 * number of bytes into a local buffer of 128.
 */
module SkipCalls {
  import opened Sockets

  /** Size of the local buffer. */
  const SKIP_CHUNK := 128

  /** One receive of a fixed number of bytes, and how many it moved before it was done or failed. */
  datatype Call = Call(asked: nat, moved: nat)

  predicate Whole(c: Call) { c.moved == c.asked }

  /** The calls from the k-th on are those that discarding len bytes makes. */
  predicate Skips(calls: seq<Call>, k: nat, len: nat)
    decreases len
  {
    && k < |calls| && calls[k].moved <= calls[k].asked
    && if len <= SKIP_CHUNK then calls[k].asked == len && k + 1 == |calls|
       else if calls[k] == Call(SKIP_CHUNK, SKIP_CHUNK) then Skips(calls, k + 1, len - SKIP_CHUNK)
       else calls[k].asked == SKIP_CHUNK && k + 2 == |calls|
            && calls[k + 1].asked == len && calls[k + 1].moved <= len
  }

  /** No call but perhaps the last has failed. */
  predicate Clean(calls: seq<Call>) { |calls| < 2 || Whole(calls[|calls| - 2]) }

  /** No failed chunk had already moved bytes. */
  predicate InStep(calls: seq<Call>) { Clean(calls) || calls[|calls| - 2].moved == 0 }

  /** Some call has moved more bytes than the local buffer holds. */
  predicate Overruns(calls: seq<Call>) {
    exists i :: 0 <= i < |calls| && calls[i].moved > SKIP_CHUNK
  }

  function Total(calls: seq<Call>, k: nat): nat
    requires k <= |calls|
    decreases |calls| - k
  {
    if k == |calls| then 0 else calls[k].moved + Total(calls, k + 1)
  }

  /** Calls on a socket whose failures stay. */
  predicate FailuresStay(calls: seq<Call>) {
    forall i, j :: 0 <= i < j < |calls| && !Whole(calls[i]) ==> calls[j].moved == 0
  }

  lemma {:induction false} OnlyTheLastIsLong(calls: seq<Call>, k: nat, len: nat)
    requires Skips(calls, k, len) && (k > 0 ==> Whole(calls[k - 1]))
    ensures forall i :: k <= i < |calls| - 1 ==> calls[i].moved <= SKIP_CHUNK
    ensures calls[|calls| - 1].moved > SKIP_CHUNK ==> |calls| >= 2 && !Whole(calls[|calls| - 2])
    decreases len
  {
    if len > SKIP_CHUNK && calls[k] == Call(SKIP_CHUNK, SKIP_CHUNK) {
      OnlyTheLastIsLong(calls, k + 1, len - SKIP_CHUNK);
    }
  }

  /**
   * The 128-byte buffer is overrun exactly when a chunk fails, which leaves more than 128 bytes to go,
   * and the last call, which asks for all of them, then moves more than 128.
   */
  lemma {:induction false} OverrunsIff(calls: seq<Call>, len: nat)
    requires Skips(calls, 0, len)
    ensures Overruns(calls) <==> !Clean(calls) && calls[|calls| - 1].moved > 128
  {
    OnlyTheLastIsLong(calls, 0, len);
    hide Skips;
  }

  /** On a socket whose failures stay that never happens. */
  lemma {:induction false} StickyNeverOverruns(calls: seq<Call>, len: nat)
    requires Skips(calls, 0, len) && FailuresStay(calls)
    ensures !Overruns(calls)
  {
    OverrunsIff(calls, len);
    hide Skips;
    if !Clean(calls) {
      assert calls[|calls| - 1].moved == 0;
    }
  }

  /** On any other it can happen exactly when there are more than 128 bytes to discard. */
  lemma {:induction false} CanOverrunIff(len: nat)
    ensures (exists calls: seq<Call> :: Skips(calls, 0, len) && Overruns(calls)) <==> len > 128
  {
    if len > SKIP_CHUNK {
      var calls := [Call(SKIP_CHUNK, 0), Call(len, len)];
      assert calls[1].moved > SKIP_CHUNK;
      assert Skips(calls, 0, len) && Overruns(calls);
    } else {
      forall calls: seq<Call> | Skips(calls, 0, len)
        ensures !Overruns(calls)
      {
        assert calls[0].moved <= SKIP_CHUNK;
      }
    }
  }

  /** A skip that succeeds has consumed, beyond its len bytes, what a failed chunk had already moved. */
  lemma {:induction false} SkipConsumes(calls: seq<Call>, k: nat, len: nat)
    requires Skips(calls, k, len) && (k > 0 ==> Whole(calls[k - 1])) && Whole(calls[|calls| - 1])
    ensures Total(calls, k) == len + if Clean(calls) then 0 else calls[|calls| - 2].moved
    decreases len
  {
    if len > SKIP_CHUNK {
      if calls[k] == Call(SKIP_CHUNK, SKIP_CHUNK) {
        SkipConsumes(calls, k + 1, len - SKIP_CHUNK);
      } else {
        assert Total(calls, k + 1) == calls[k + 1].moved + Total(calls, k + 2);
      }
    }
  }

  /** A skip can succeed and yet leave the stream out of step exactly when there are more than 128 bytes. */
  lemma {:induction false} CanSlipIff(len: nat)
    ensures (exists calls: seq<Call> :: Skips(calls, 0, len) && Whole(calls[|calls| - 1]) && !InStep(calls))
            <==> len > 128
  {
    if len > SKIP_CHUNK {
      var calls := [Call(SKIP_CHUNK, 1), Call(len, len)];
      assert Skips(calls, 0, len) && Whole(calls[|calls| - 1]) && !InStep(calls);
    } else {
      forall calls: seq<Call> | Skips(calls, 0, len)
        ensures InStep(calls)
      {
      }
    }
  }

  /** The bytes written behind the local buffer: those of the last call from the 129th on. */
  function Spill(calls: seq<Call>, all: seq<Byte>): seq<Byte>
    requires calls != [] && Total(calls, 0) <= |all| && calls[|calls| - 1].moved <= Total(calls, 0)
  {
    var start := Total(calls, 0) - calls[|calls| - 1].moved;
    if calls[|calls| - 1].moved > SKIP_CHUNK then all[start + SKIP_CHUNK..Total(calls, 0)] else []
  }

  lemma {:induction false} TotalAppend(calls: seq<Call>, c: Call, k: nat)
    requires k <= |calls|
    ensures Total(calls + [c], k) == Total(calls, k) + c.moved
    decreases |calls| - k
  {
    if k < |calls| {
      TotalAppend(calls, c, k + 1);
    } else {
      assert Total(calls + [c], k + 1) == 0;
    }
  }

  /** Whole chunks so far, with rest bytes of len still to go. */
  predicate Chunks(calls: seq<Call>, len: nat, rest: nat) {
    && (forall i :: 0 <= i < |calls| ==> calls[i] == Call(SKIP_CHUNK, SKIP_CHUNK))
    && len == |calls| * SKIP_CHUNK + rest && (calls != [] ==> rest > 0)
  }

  lemma {:induction false} ChunksLead(calls: seq<Call>, more: seq<Call>, k: nat, len: nat, rest: nat)
    requires k <= |calls| && Chunks(calls, len, rest) && Skips(calls + more, |calls|, rest)
    ensures Skips(calls + more, k, len - k * SKIP_CHUNK)
    decreases |calls| - k
  {
    if k < |calls| {
      ChunksLead(calls, more, k + 1, len, rest);
      assert (calls + more)[k] == Call(SKIP_CHUNK, SKIP_CHUNK);
    }
  }

  lemma NoCalls()
    ensures Total([], 0) == 0 && Clean([]) && !Overruns([])
  {
  }

  /**
   * How far the loop has come: its whole chunks, one failed chunk when it no longer goes on, rest bytes
   * still to go, and what is left of all the bytes that were waiting.
   */
  predicate Progress(
      chunks: seq<Call>, going: bool, failed: nat, calls: seq<Call>, len: nat, rest: nat, all: seq<Byte>, left: seq<Byte>)
  {
    && Chunks(chunks, len, rest)
    && (if going then calls == chunks && failed == 0
        else calls == chunks + [Call(SKIP_CHUNK, failed)] && failed < SKIP_CHUNK < rest)
    && Total(calls, 0) == len - rest + failed <= |all| && left == all[Total(calls, 0)..]
  }

  lemma Begins(len: nat, all: seq<Byte>)
    ensures Progress([], true, 0, [], len, len, all, all)
  {
  }

  /** While the loop goes on no chunk has failed. */
  lemma ForgetFailed(
      chunks: seq<Call>, failed: nat, calls: seq<Call>, len: nat, rest: nat, all: seq<Byte>, left: seq<Byte>)
    requires Progress(chunks, true, failed, calls, len, rest, all, left)
    ensures failed == 0 && calls == chunks
  {
  }

  lemma {:induction false} Goes(chunks: seq<Call>, len: nat, rest: nat, all: seq<Byte>, left: seq<Byte>, moved: nat)
    requires Progress(chunks, true, 0, chunks, len, rest, all, left)
    requires rest > SKIP_CHUNK >= moved && moved <= |left|
    ensures var calls := chunks + [Call(SKIP_CHUNK, moved)];
            if moved == SKIP_CHUNK then Progress(calls, true, 0, calls, len, rest - SKIP_CHUNK, all, left[moved..])
            else Progress(chunks, false, moved, calls, len, rest, all, left[moved..])
  {
    TotalAppend(chunks, Call(SKIP_CHUNK, moved), 0);
    hide Total;
    assert left[moved..] == all[Total(chunks, 0) + moved..];
  }

  /** A loop that stopped with nothing left waiting had too little to begin with. */
  lemma Starved(chunks: seq<Call>, failed: nat, calls: seq<Call>, len: nat, rest: nat, all: seq<Byte>)
    requires Progress(chunks, false, failed, calls, len, rest, all, [])
    ensures |all| < len
  {
  }

  /** The call that asks for the rest, after the loop, makes the calls of a skip of len bytes. */
  lemma {:induction false} LastCallShape(
      chunks: seq<Call>, going: bool, failed: nat, before: seq<Call>, len: nat, rest: nat, all: seq<Byte>, left: seq<Byte>,
      moved: nat)
    requires Progress(chunks, going, failed, before, len, rest, all, left) && moved <= rest
    requires going ==> rest <= SKIP_CHUNK
    ensures var calls := before + [Call(rest, moved)];
            && Skips(calls, 0, len)
            && (Clean(calls) <==> going)
            && (Overruns(calls) <==> moved > SKIP_CHUNK)
            && (going || moved == 0 ==> FailuresStay(calls))
  {
    hide Total;
    var last := Call(rest, moved);
    var more := if going then [last] else [Call(SKIP_CHUNK, failed), last];
    var calls := before + [last];
    assert calls == chunks + more;
    ChunksLead(chunks, more, 0, len, rest);
    OverrunsIff(calls, len);
    hide Skips, Overruns;
  }

  /** What the whole skip has consumed and written behind the buffer. */
  lemma {:induction false} LastCallMoves(
      chunks: seq<Call>, going: bool, failed: nat, before: seq<Call>, len: nat, rest: nat, all: seq<Byte>, left: seq<Byte>,
      moved: nat)
    requires Progress(chunks, going, failed, before, len, rest, all, left) && moved <= rest && moved <= |left|
    ensures var calls := before + [Call(rest, moved)];
            && Total(calls, 0) == Total(before, 0) + moved <= |all| && left[moved..] == all[Total(calls, 0)..]
            && Spill(calls, all) == (if moved > SKIP_CHUNK then left[SKIP_CHUNK..moved] else [])
            && (going && moved == rest ==> Total(calls, 0) == len)
            && (going && moved == |left| < rest ==> |all| < len)
  {
    var last := Call(rest, moved);
    TotalAppend(before, last, 0);
    hide Total, Chunks;
    assert (before + [last])[|before|] == last;
    assert left[moved..] == all[Total(before, 0) + moved..];
  }
}
