/** Constants that several parts of the kernel share (kernel/param.h). */
module Params {
  const MAXOPBLOCKS := 10              // most blocks an operation logs
  const LOGBLOCKS := 3 * MAXOPBLOCKS   // blocks in the on-disk log
  const WORDS := 0x1_0000_0000         // values of a uint
}

/** The log_write calls of one operation, in order. */
module LogCalls {
  import opened Params
  import opened Sets

  /** The distinct blocks among the calls. */
  ghost function Called(calls: seq<int>): (s: set<int>) {
    if calls == [] then {} else Called(calls[..|calls| - 1]) + {calls[|calls| - 1]}
  }

  /** The blocks that several operations log. */
  ghost function AllCalled(txns: seq<seq<int>>): (s: set<int>) {
    if txns == [] then {} else AllCalled(txns[..|txns| - 1]) + Called(txns[|txns| - 1])
  }

  lemma AllCalledNext(txns: seq<seq<int>>, calls: seq<int>)
    ensures AllCalled(txns + [calls]) == AllCalled(txns) + Called(calls)
  {
    assert (txns + [calls])[..|txns|] == txns;
  }

  lemma CalledNext(calls: seq<int>, b: int)
    ensures Called(calls + [b]) == Called(calls) + {b}
  {
    assert (calls + [b])[..|calls|] == calls;
  }

  /** Every call finds fewer than MAXOPBLOCKS blocks of its own operation in the log. */
  ghost predicate Orderly(calls: seq<int>) {
    forall k :: 0 <= k < |calls| ==> |Called(calls[..k])| < MAXOPBLOCKS
  }

  lemma {:induction false} CalledPrefix(calls: seq<int>, k: nat)
    requires k <= |calls|
    ensures Called(calls[..k]) <= Called(calls)
    decreases |calls|
  {
    if k < |calls| {
      var but := calls[..|calls| - 1];
      CalledPrefix(but, k);
      assert but[..k] == calls[..k];
    } else {
      assert calls[..k] == calls;
    }
  }

  /** It is enough to look at the last call. */
  lemma OrderlyIf(calls: seq<int>, b: int)
    requires |Called(calls)| < MAXOPBLOCKS
    ensures Orderly(calls + [b])
  {
    var all := calls + [b];
    forall k | 0 <= k < |all| ensures |Called(all[..k])| < MAXOPBLOCKS {
      CalledPrefix(calls, k);
      assert all[..k] == calls[..k];
      SubsetSize(Called(calls[..k]), Called(calls));
    }
  }
}
