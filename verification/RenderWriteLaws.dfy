/** What the counts of the write loop are, in plain numbers. */
module RenderWriteLaws {
  import opened RenderWrite

  /** Frames the device says it has written in its first n replies, wanted or not. */
  function SaysWritten(replies: seq<Reply>, n: nat): nat
    requires n <= |replies|
  {
    if n == 0 then 0
    else SaysWritten(replies, n - 1) + (if replies[n - 1].frames > 0 then replies[n - 1].frames else 0)
  }

  /** Those are the frames taken, until there are none left. */
  lemma {:induction false} TakenIs(size: nat, replies: seq<Reply>, n: nat)
    requires n <= |replies|
    ensures Taken(size, replies, n) == if SaysWritten(replies, n) < size then SaysWritten(replies, n) else size
  {
    if n > 0 {
      TakenIs(size, replies, n - 1);
    }
  }

  /** Each reply of k > 0 frames is for the next k * (bitsPerFrame / 8) bytes, or for what is
      left of the buffer; any other reply is for none. */
  lemma PieceOf(size: nat, replies: seq<Reply>, n: nat, bitsPerFrame: nat)
    requires n < |replies|
    ensures
      var k, left := replies[n].frames, size - Taken(size, replies, n);
      Taken(size, replies, n + 1) * (bitsPerFrame / 8)
        == Taken(size, replies, n) * (bitsPerFrame / 8)
           + (if k <= 0 then 0 else if k < left then k else left) * (bitsPerFrame / 8)
  {
    var before, offset := Taken(size, replies, n), bitsPerFrame / 8;
    var k, left := replies[n].frames, size - before;
    var more := if k <= 0 then 0 else if k < left then k else left;
    assert Taken(size, replies, n + 1) == before + more;
    hide Taken;
    assert (before + more) * offset == before * offset + more * offset;
  }

  /** -11 is would-block. */
  lemma {:induction false} BlocksIs(replies: seq<Reply>, n: nat)
    requires n <= |replies|
    ensures Blocks(replies, n) == |set k | 0 <= k < n && replies[k].frames == -11|
  {
    if n > 0 {
      BlocksIs(replies, n - 1);
      var before, after := set k | 0 <= k < n - 1 && replies[k].frames == -11,
                           set k | 0 <= k < n && replies[k].frames == -11;
      assert after == if replies[n - 1].frames == -11 then before + {n - 1} else before;
    }
  }

  lemma {:induction false} RecoveriesIs(replies: seq<Reply>, n: nat)
    requires n <= |replies|
    ensures Recoveries(replies, n) == |set k | 0 <= k < n && RecoveredFrom(replies[k])|
  {
    if n > 0 {
      RecoveriesIs(replies, n - 1);
      assert NeedsRecovery(replies[n - 1]) && replies[n - 1].recoverOk <==> RecoveredFrom(replies[n - 1]);
      hide RecoveredFrom, NeedsRecovery;
      var before, after := set k | 0 <= k < n - 1 && RecoveredFrom(replies[k]),
                           set k | 0 <= k < n && RecoveredFrom(replies[k]);
      assert after == if RecoveredFrom(replies[n - 1]) then before + {n - 1} else before;
    }
  }

  /** A reply of no frames, or a fault other than would-block (-11) and bad state (-77),
      that snd_pcm_recover mends. */
  predicate RecoveredFrom(r: Reply) {
    r.frames <= 0 && r.frames != -11 && r.frames != -77 && r.recoverOk
  }

  /** How the loop ends: in an error, at a bad state (-77) or a fault that is not mended; or
      when the last reply is the would-block that makes their number the retries. */
  lemma EndsIff(retries: int, replies: seq<Reply>, n: nat)
    requires n <= |replies|
    ensures EndsInError(replies, n)
       <==> n > 0 && (replies[n - 1].frames == -77
                      || (replies[n - 1].frames <= 0 && replies[n - 1].frames != -11 && !replies[n - 1].recoverOk))
    ensures BudgetSpent(retries, replies, n)
       <==> n > 0 && replies[n - 1].frames == -11
            && |set k | 0 <= k < n && replies[k].frames == -11| == retries
  {
    BlocksIs(replies, n);
  }
}
