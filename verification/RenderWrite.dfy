/** The playback write loop.  The sound library is an oracle: the replies it will give,
in order, are an input, and a run that has used them all up is still pending. */
module RenderWrite {

  type Byte = bv8

  const EAGAIN := 11
  const EBADFD := 77
  const BIT_COUNT_OF_BYTE := 8

  /** What one snd_pcm_mmap_writei returns, and whether the snd_pcm_recover that may
      follow it succeeds.  The device never takes more frames than it is offered. */
  datatype Reply = Reply(frames: int, recoverOk: bool)

  datatype Outcome = Success | Failure | Pending

  function Min(a: nat, b: nat): nat {
    if a < b then a else b
  }

  /** Frames taken by the device in its first n replies, of `size` offered. */
  function Taken(size: nat, replies: seq<Reply>, n: nat): (t: nat)
    requires n <= |replies|
    ensures t <= size
  {
    if n == 0 then 0
    else
      var before := Taken(size, replies, n - 1);
      if replies[n - 1].frames > 0 then before + Min(replies[n - 1].frames, size - before) else before
  }

  /** How many of the first n replies are would-block. */
  function Blocks(replies: seq<Reply>, n: nat): nat
    requires n <= |replies|
  {
    if n == 0 then 0 else Blocks(replies, n - 1) + (if replies[n - 1].frames == -EAGAIN then 1 else 0)
  }

  predicate NeedsRecovery(r: Reply) {
    r.frames <= 0 && r.frames != -EAGAIN && r.frames != -EBADFD
  }

  /** How many of the first n replies are faults, or writes of nothing, that were
      recovered from. */
  function Recoveries(replies: seq<Reply>, n: nat): nat
    requires n <= |replies|
  {
    if n == 0 then 0
    else Recoveries(replies, n - 1) + (if NeedsRecovery(replies[n - 1]) && replies[n - 1].recoverOk then 1 else 0)
  }

  /** The reply ends the loop with an error. */
  predicate Fatal(r: Reply) {
    r.frames == -EBADFD || (NeedsRecovery(r) && !r.recoverOk)
  }

  predicate EndsInError(replies: seq<Reply>, n: nat)
    requires n <= |replies|
  {
    n > 0 && Fatal(replies[n - 1])
  }

  /** The n-th reply spends the last of the retries. */
  predicate BudgetSpent(retries: int, replies: seq<Reply>, n: nat)
    requires n <= |replies|
  {
    n > 0 && replies[n - 1].frames == -EAGAIN && Blocks(replies, n) == retries
  }

  /** The loop is over after n replies. */
  predicate Over(size: nat, retries: int, replies: seq<Reply>, n: nat)
    requires n <= |replies|
  {
    Taken(size, replies, n) == size || BudgetSpent(retries, replies, n) || EndsInError(replies, n)
  }

  ghost predicate NotOverBefore(size: nat, retries: int, replies: seq<Reply>, n: nat)
    requires n <= |replies|
  {
    forall m: nat :: m < n ==> !Over(size, retries, replies, m)
  }

  function BytesOf(frames: nat, offset: nat): nat {
    frames * offset
  }

  lemma BytesOfIs(frames: nat, bitsPerFrame: nat)
    ensures BytesOf(frames, bitsPerFrame / BIT_COUNT_OF_BYTE) == frames * (bitsPerFrame / 8)
  {
  }

  lemma BytesAdd(a: nat, b: nat, size: nat, offset: nat)
    requires a + b <= size
    ensures BytesOf(a + b, offset) == BytesOf(a, offset) + BytesOf(b, offset)
    ensures BytesOf(a + b, offset) <= BytesOf(size, offset)
  {
    var rest := size - a - b;
    assert size == a + b + rest;
    assert size * offset == a * offset + b * offset + rest * offset;
  }

  /** One reply takes the loop a step on. */
  lemma ReplyStep(size: nat, retries: int, replies: seq<Reply>, n: nat)
    requires n < |replies| && NotOverBefore(size, retries, replies, n) && !Over(size, retries, replies, n)
    ensures NotOverBefore(size, retries, replies, n + 1)
    ensures
      var r, left := replies[n], size - Taken(size, replies, n);
      && left > 0
      && Taken(size, replies, n + 1) == Taken(size, replies, n) + (if r.frames > 0 then Min(r.frames, left) else 0)
      && Blocks(replies, n + 1) == Blocks(replies, n) + (if r.frames == -EAGAIN then 1 else 0)
      && (BudgetSpent(retries, replies, n + 1) <==> r.frames == -EAGAIN && Blocks(replies, n + 1) == retries)
      && (EndsInError(replies, n + 1) <==> Fatal(r))
  {
  }

  /** Writes one buffer.  `handed` are the bytes the device took, in the order it took
      them, and `used` the number of replies it took. */
  method RenderWriteiVdi(inCall: bool, setup: bool, prepareOk: bool, buffer: seq<Byte>, bufferFrameSize: nat,
                         bitsPerFrame: nat, retries: int, replies: seq<Reply>)
    returns (outcome: Outcome, handed: seq<Byte>, used: nat)
    requires BytesOf(bufferFrameSize, bitsPerFrame / BIT_COUNT_OF_BYTE) <= |buffer|
    ensures used <= |replies|
    ensures inCall || (setup && !prepareOk) ==> outcome == Failure && handed == [] && used == 0
    ensures !inCall && (setup ==> prepareOk) ==>
      && NotOverBefore(bufferFrameSize, retries, replies, used)
      && (outcome == Pending <==> !Over(bufferFrameSize, retries, replies, used))
      && (outcome == Pending ==> used == |replies|)
      && (outcome == Failure <==> EndsInError(replies, used))
      && (outcome == Success <==> Taken(bufferFrameSize, replies, used) == bufferFrameSize
                                  || BudgetSpent(retries, replies, used))
    ensures
      var n := BytesOf(Taken(bufferFrameSize, replies, used), bitsPerFrame / BIT_COUNT_OF_BYTE);
      n <= |buffer| && handed == buffer[..n]
    ensures |handed| == Taken(bufferFrameSize, replies, used) * (bitsPerFrame / 8)
    ensures outcome == Success && Taken(bufferFrameSize, replies, used) == bufferFrameSize ==>
      |handed| == bufferFrameSize * (bitsPerFrame / 8)
  {
    hide Taken, Blocks, Over, BudgetSpent, EndsInError, NotOverBefore, BytesOf;
    outcome, handed, used := Failure, [], 0;
    var offset := bitsPerFrame / BIT_COUNT_OF_BYTE;
    BeforeWriting(bufferFrameSize, offset, retries, replies);
    forall n | 0 <= n <= |replies| ensures
      BytesOf(Taken(bufferFrameSize, replies, n), offset) == Taken(bufferFrameSize, replies, n) * (bitsPerFrame / 8)
    {
      BytesOfIs(Taken(bufferFrameSize, replies, n), bitsPerFrame);
    }
    if inCall {
      return;
    }
    if setup && !prepareOk {
      return;
    }
    var sbufFrameSize, dataBuf, tryNum := bufferFrameSize, 0, retries;
    OverCases(bufferFrameSize, retries, replies, 0);
    while sbufFrameSize > 0
      invariant used <= |replies|
      invariant sbufFrameSize == bufferFrameSize - Taken(bufferFrameSize, replies, used)
      invariant tryNum == retries - Blocks(replies, used)
      invariant NotOverBefore(bufferFrameSize, retries, replies, used)
      invariant !BudgetSpent(retries, replies, used) && !EndsInError(replies, used)
      invariant dataBuf == BytesOf(Taken(bufferFrameSize, replies, used), offset) <= |buffer|
      invariant handed == buffer[..dataBuf]
      decreases |replies| - used
    {
      OverCases(bufferFrameSize, retries, replies, used);
      if used == |replies| {
        outcome := Pending;
        return;
      }
      var reply := replies[used];
      var frames := if reply.frames > sbufFrameSize then sbufFrameSize else reply.frames;
      ReplyStep(bufferFrameSize, retries, replies, used);
      OverCases(bufferFrameSize, retries, replies, used + 1);
      used := used + 1;
      if frames > 0 {
        BytesAdd(bufferFrameSize - sbufFrameSize, frames, bufferFrameSize, offset);
        sbufFrameSize := sbufFrameSize - frames;
        var next := dataBuf + BytesOf(frames, offset);
        handed := handed + buffer[dataBuf..next];
        dataBuf := next;
      } else if frames == -EAGAIN {
        tryNum := tryNum - 1;
        if tryNum == 0 {
          outcome := Success;
          return;
        }
      } else if frames == -EBADFD {
        return;
      } else {
        if !reply.recoverOk {
          return;
        }
      }
    }
    OverCases(bufferFrameSize, retries, replies, used);
    outcome := Success;
  }

  lemma BeforeWriting(size: nat, offset: nat, retries: int, replies: seq<Reply>)
    ensures Taken(size, replies, 0) == 0 && Blocks(replies, 0) == 0 && BytesOf(0, offset) == 0
    ensures NotOverBefore(size, retries, replies, 0)
    ensures !BudgetSpent(retries, replies, 0) && !EndsInError(replies, 0)
  {
  }

  /** The ways to be over; an error is never also a success. */
  lemma OverCases(size: nat, retries: int, replies: seq<Reply>, n: nat)
    requires n <= |replies| && NotOverBefore(size, retries, replies, n)
    ensures Over(size, retries, replies, n)
       <==> Taken(size, replies, n) == size || BudgetSpent(retries, replies, n) || EndsInError(replies, n)
    ensures EndsInError(replies, n) ==> Taken(size, replies, n) < size && !BudgetSpent(retries, replies, n)
  {
    if EndsInError(replies, n) {
      assert !Over(size, retries, replies, n - 1);
    }
  }

  // ---------------------------------------------------------------- how long it can take

  /** Every reply before the end takes a frame, spends a retry or is recovered from. */
  lemma {:induction false} RepliesAccountedFor(size: nat, retries: int, replies: seq<Reply>, n: nat)
    requires n <= |replies| && NotOverBefore(size, retries, replies, n)
    ensures n <= Taken(size, replies, n) + Blocks(replies, n) + Recoveries(replies, n)
                 + (if EndsInError(replies, n) then 1 else 0)
    ensures retries >= 1 ==> Blocks(replies, n) <= retries
    ensures retries >= 1 && Blocks(replies, n) == retries ==> Over(size, retries, replies, n)
  {
    if n > 0 {
      RepliesAccountedFor(size, retries, replies, n - 1);
      assert !Over(size, retries, replies, n - 1);
    }
  }

  /** The loop ends: a run that is still pending has used fewer replies than there are
      frames, retries and recoveries together.  So an endless run needs endless
      recoveries. */
  lemma PendingIsBounded(size: nat, retries: int, replies: seq<Reply>)
    requires retries >= 1
    requires NotOverBefore(size, retries, replies, |replies|) && !Over(size, retries, replies, |replies|)
    ensures |replies| + 2 <= size + retries + Recoveries(replies, |replies|)
  {
    RepliesAccountedFor(size, retries, replies, |replies|);
  }

  /** The bound is needed: a device that keeps writing nothing keeps the loop pending,
      for as long as recovering from it succeeds. */
  lemma {:induction false} ZeroWritesStall(size: nat, retries: int, replies: seq<Reply>, n: nat)
    requires size > 0 && n <= |replies|
    requires forall k :: 0 <= k < n ==> replies[k] == Reply(0, true)
    ensures NotOverBefore(size, retries, replies, n) && !Over(size, retries, replies, n)
    ensures Taken(size, replies, n) == 0
  {
    if n > 0 {
      ZeroWritesStall(size, retries, replies, n - 1);
    }
  }
}
