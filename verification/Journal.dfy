/** The on-disk redo log of kernel/log.c: its layout, the exact sequence of
    single-block writes that commit and recovery perform, and what a disk
    recovers to.  A disk write is one atomic step, so a crash is a prefix of
    such a sequence. */
module Journal {
  import opened Params
  import opened Sets

  const BLOCK_WORDS := 256  // BSIZE / sizeof(uint)

  /** The words of a block.  In the header block word 0 is logheader.n and the
      next LOGBLOCKS words are logheader.block[]. */
  type Block = seq<int>
  type Disk = seq<Block>
  datatype Write = Write(dst: int, data: Block)

  /** Blocks start .. start + LOGBLOCKS hold the header and the log blocks. */
  predicate InLog(start: int, b: int) {
    start <= b <= start + LOGBLOCKS
  }

  predicate Fits(d: Disk, start: int) {
    0 <= start && start + LOGBLOCKS < |d|
  }

  predicate Home(size: nat, start: int, b: int) {
    0 <= b < size && !InLog(start, b)
  }

  predicate Homes(size: nat, start: int, lh: seq<int>) {
    forall i :: 0 <= i < |lh| ==> Home(size, start, lh[i])
  }

  /** What log_write guarantees of log.lh: it fits, no block occurs twice, and
      every block lies outside the log area. */
  predicate GoodList(size: nat, start: int, lh: seq<int>) {
    && |lh| <= LOGBLOCKS
    && Distinct(lh)
    && Homes(size, start, lh)
  }

  /** write_head: n and the first n entries change, the rest of the block stays. */
  function EncodeHead(was: Block, lh: seq<int>): (r: Block)
    requires |lh| <= LOGBLOCKS && |was| == BLOCK_WORDS
    ensures |r| == BLOCK_WORDS && r[0] == |lh| && r[1..1 + |lh|] == lh
    ensures r[1 + |lh|..] == was[1 + |lh|..]
  {
    [|lh|] + lh + was[1 + |lh|..]
  }

  /** The header block is in place and within bounds. */
  predicate HasHead(d: Disk, start: int) {
    && Fits(d, start)
    && |d[start]| == BLOCK_WORDS
    && 0 <= d[start][0] <= LOGBLOCKS
  }

  function Head(d: Disk, start: int): (lh: seq<int>)
    requires HasHead(d, start)
  {
    d[start][1..1 + d[start][0]]
  }

  /** A disk the recovery code can start from. */
  predicate GoodDisk(d: Disk, start: int) {
    HasHead(d, start) && GoodList(|d|, start, Head(d, start))
  }

  // ---- sequences of disk writes

  predicate InRange(d: Disk, ws: seq<Write>) {
    forall i :: 0 <= i < |ws| ==> 0 <= ws[i].dst < |d|
  }

  function Apply(d: Disk, ws: seq<Write>): (r: Disk)
    requires InRange(d, ws)
    ensures |r| == |d|
  {
    if ws == [] then d
    else
      var w := ws[|ws| - 1];
      Apply(d, ws[..|ws| - 1])[w.dst := w.data]
  }

  lemma {:induction false} ApplyMiss(d: Disk, ws: seq<Write>, b: int)
    requires InRange(d, ws) && 0 <= b < |d|
    requires forall i :: 0 <= i < |ws| ==> ws[i].dst != b
    ensures Apply(d, ws)[b] == d[b]
  {
    if ws != [] {
      ApplyMiss(d, ws[..|ws| - 1], b);
    }
  }

  lemma {:induction false} ApplyHit(d: Disk, ws: seq<Write>, i: nat)
    requires InRange(d, ws) && i < |ws|
    requires forall j :: i < j < |ws| ==> ws[j].dst != ws[i].dst
    ensures Apply(d, ws)[ws[i].dst] == ws[i].data
  {
    if i < |ws| - 1 {
      ApplyHit(d, ws[..|ws| - 1], i);
    }
  }

  lemma ApplyNext(d: Disk, ws: seq<Write>, k: nat)
    requires InRange(d, ws) && k < |ws|
    ensures Apply(d, ws[..k + 1]) == Apply(d, ws[..k])[ws[k].dst := ws[k].data]
  {
    assert ws[..k + 1][..k] == ws[..k];
  }

  // ---- what the code writes

  /** write_log */
  function LogWrites(start: int, data: seq<Block>): (ws: seq<Write>)
    ensures |ws| == |data|
    ensures forall i {:trigger ws[i]} :: 0 <= i < |ws| ==> ws[i] == Write(start + 1 + i, data[i])
  {
    seq(|data|, i requires 0 <= i < |data| => Write(start + 1 + i, data[i]))
  }

  /** install_trans */
  function InstallWrites(lh: seq<int>, data: seq<Block>): (ws: seq<Write>)
    requires |lh| == |data|
    ensures |ws| == |lh|
    ensures forall i {:trigger ws[i]} :: 0 <= i < |ws| ==> ws[i] == Write(lh[i], data[i])
  {
    seq(|lh|, i requires 0 <= i < |lh| => Write(lh[i], data[i]))
  }

  /** commit: log blocks, header, home blocks, cleared header */
  function CommitWrites(d: Disk, start: int, lh: seq<int>, data: seq<Block>): (ws: seq<Write>)
    requires HasHead(d, start) && |lh| == |data| <= LOGBLOCKS
  {
    if lh == [] then []
    else
      var head := EncodeHead(d[start], lh);
      LogWrites(start, data) + [Write(start, head)]
      + InstallWrites(lh, data) + [Write(start, EncodeHead(head, []))]
  }

  /** recover_from_log */
  function RecoverWrites(d: Disk, start: int): (ws: seq<Write>)
    requires GoodDisk(d, start)
  {
    var lh := Head(d, start);
    InstallWrites(lh, d[start + 1..start + 1 + |lh|]) + [Write(start, EncodeHead(d[start], []))]
  }

  function Recover(d: Disk, start: int): (r: Disk)
    requires GoodDisk(d, start)
    ensures |r| == |d|
  {
    Apply(d, RecoverWrites(d, start))
  }

  // ---- what a disk means

  function IndexOf(lh: seq<int>, b: int): (i: int)
    requires b in lh
    ensures 0 <= i < |lh| && lh[i] == b
  {
    if lh[0] == b then 0 else 1 + IndexOf(lh[1..], b)
  }

  /** The committed contents of home block b: its log copy if the header names
      it, its home copy otherwise. */
  function Committed(d: Disk, start: int, b: int): (v: Block)
    requires GoodDisk(d, start) && 0 <= b < |d|
  {
    var lh := Head(d, start);
    if b in lh then d[start + 1 + IndexOf(lh, b)] else d[b]
  }

  /** Two disks that agree on every committed home block. */
  ghost predicate SameCommitted(d: Disk, e: Disk, start: int) {
    && GoodDisk(d, start) && GoodDisk(e, start) && |d| == |e|
    && forall b: int :: Home(|d|, start, b) ==> Committed(d, start, b) == Committed(e, start, b)
  }

  /** Every home block of e holds what is committed on d. */
  ghost predicate HoldsCommitted(e: Disk, d: Disk, start: int) {
    && GoodDisk(d, start) && |d| == |e|
    && forall b: int :: Home(|d|, start, b) ==> e[b] == Committed(d, start, b)
  }

  lemma EmptyHead(d: Disk, start: int)
    requires HasHead(d, start) && d[start][0] == 0
    ensures GoodDisk(d, start) && Head(d, start) == []
  {}

  // ---- recovery

  lemma RecoverWritesInRange(d: Disk, start: int)
    requires GoodDisk(d, start)
    ensures InRange(d, RecoverWrites(d, start))
  {}

  lemma RecoverWritesAt(d: Disk, start: int, k: nat)
    requires GoodDisk(d, start)
    ensures |RecoverWrites(d, start)| == |Head(d, start)| + 1
    ensures k < |Head(d, start)| ==> RecoverWrites(d, start)[k] == Write(Head(d, start)[k], d[start + 1 + k])
    ensures k == |Head(d, start)| ==> RecoverWrites(d, start)[k] == Write(start, EncodeHead(d[start], []))
  {}

  lemma RecoverDsts(d: Disk, start: int)
    requires GoodDisk(d, start)
    ensures |RecoverWrites(d, start)| == |Head(d, start)| + 1
    ensures forall i :: 0 <= i < |Head(d, start)| ==> RecoverWrites(d, start)[i].dst == Head(d, start)[i]
    ensures RecoverWrites(d, start)[|Head(d, start)|].dst == start
  {}

  /** Until its last write, recovery touches home blocks named in the header only. */
  lemma RecoverKeepsLog(d: Disk, start: int, k: nat, b: int)
    requires GoodDisk(d, start) && k <= |Head(d, start)| && 0 <= b < |d|
    requires b !in Head(d, start)[..k]
    ensures k <= |RecoverWrites(d, start)| && InRange(d, RecoverWrites(d, start)[..k])
    ensures Apply(d, RecoverWrites(d, start)[..k])[b] == d[b]
  {
    var ws := RecoverWrites(d, start);
    forall i | 0 <= i < k ensures ws[..k][i].dst != b {
      RecoverWritesAt(d, start, i);
      assert ws[..k][i].dst == Head(d, start)[..k][i];
    }
    ApplyMiss(d, ws[..k], b);
  }

  lemma RecoverInstallsAt(d: Disk, start: int, i: nat)
    requires GoodDisk(d, start) && i < |Head(d, start)|
    ensures 0 <= Head(d, start)[i] < |d| && Recover(d, start)[Head(d, start)[i]] == d[start + 1 + i]
  {
    var ws, lh := RecoverWrites(d, start), Head(d, start);
    RecoverDsts(d, start);
    RecoverWritesAt(d, start, i);
    assert Home(|d|, start, lh[i]);
    forall j | i < j < |ws| ensures ws[j].dst != ws[i].dst {
      DistinctPairs(lh);
    }
    ApplyHit(d, ws, i);
  }

  lemma RecoverInstallsOne(d: Disk, start: int, b: int)
    requires GoodDisk(d, start) && Home(|d|, start, b)
    ensures Recover(d, start)[b] == Committed(d, start, b)
  {
    var ws, lh := RecoverWrites(d, start), Head(d, start);
    RecoverDsts(d, start);
    if b in lh {
      RecoverInstallsAt(d, start, IndexOf(lh, b));
    } else {
      ApplyMiss(d, ws, b);
    }
  }

  /** A finished recovery puts every committed block home and clears the header. */
  lemma RecoverInstalls(d: Disk, start: int)
    requires GoodDisk(d, start)
    ensures GoodDisk(Recover(d, start), start)
    ensures Head(Recover(d, start), start) == []
    ensures HoldsCommitted(Recover(d, start), d, start)
  {
    var ws, lh, r := RecoverWrites(d, start), Head(d, start), Recover(d, start);
    RecoverWritesAt(d, start, |lh|);
    ApplyHit(d, ws, |lh|);
    EmptyHead(r, start);
    forall b: int | Home(|d|, start, b) ensures r[b] == Committed(d, start, b) {
      RecoverInstallsOne(d, start, b);
    }
  }

  lemma SameLogSameCommitted(e: Disk, d: Disk, start: int)
    requires GoodDisk(d, start) && |e| == |d|
    requires forall b: int :: 0 <= b < |d| && b !in Head(d, start) ==> e[b] == d[b]
    ensures SameCommitted(e, d, start)
  {
    assert e[start] == d[start];
    assert Head(e, start) == Head(d, start);
  }

  /** A recovery that crashes after any number of its writes leaves a disk that
      still recovers to the same contents. */
  lemma RecoverPrefix(d: Disk, start: int, k: nat)
    requires GoodDisk(d, start) && k <= |RecoverWrites(d, start)|
    ensures InRange(d, RecoverWrites(d, start)[..k])
    ensures SameCommitted(Apply(d, RecoverWrites(d, start)[..k]), d, start)
  {
    var ws := RecoverWrites(d, start);
    RecoverWritesInRange(d, start);
    if k == |ws| {
      assert ws[..k] == ws;
      RecoverInstalls(d, start);
    } else {
      RecoverWritesAt(d, start, 0);
      forall b: int | 0 <= b < |d| && b !in Head(d, start) ensures Apply(d, ws[..k])[b] == d[b] {
        RecoverKeepsLog(d, start, k, b);
      }
      SameLogSameCommitted(Apply(d, ws[..k]), d, start);
    }
  }

  /** The disk after a series of recovery attempts, attempt i crashing after
      crashes[i] of its writes. */
  function CrashedRecoveries(d: Disk, start: int, crashes: seq<nat>): (r: Disk)
    requires GoodDisk(d, start)
    ensures GoodDisk(r, start) && |r| == |d|
    decreases |crashes|
  {
    if crashes == [] then d
    else
      var ws := RecoverWrites(d, start);
      var k := if crashes[0] <= |ws| then crashes[0] else |ws|;
      RecoverPrefix(d, start, k);
      CrashedRecoveries(Apply(d, ws[..k]), start, crashes[1..])
  }

  lemma {:induction false} CrashedRecoveriesKeep(d: Disk, start: int, crashes: seq<nat>)
    requires GoodDisk(d, start)
    ensures SameCommitted(CrashedRecoveries(d, start, crashes), d, start)
    decreases |crashes|
  {
    if crashes != [] {
      var ws := RecoverWrites(d, start);
      var k := if crashes[0] <= |ws| then crashes[0] else |ws|;
      RecoverPrefix(d, start, k);
      CrashedRecoveriesKeep(Apply(d, ws[..k]), start, crashes[1..]);
    }
  }

  // ---- commit

  /** What a commit may start from: an empty header on disk and a list that
      log_write built. */
  predicate CommitReady(d: Disk, start: int, lh: seq<int>, data: seq<Block>) {
    && HasHead(d, start) && d[start][0] == 0
    && GoodList(|d|, start, lh) && |data| == |lh|
  }

  lemma CommitWritesAt(d: Disk, start: int, lh: seq<int>, data: seq<Block>, k: nat)
    requires CommitReady(d, start, lh, data) && lh != []
    ensures |CommitWrites(d, start, lh, data)| == 2 * |lh| + 2
    ensures k < |lh| ==> CommitWrites(d, start, lh, data)[k] == Write(start + 1 + k, data[k])
    ensures k == |lh| ==> CommitWrites(d, start, lh, data)[k] == Write(start, EncodeHead(d[start], lh))
    ensures |lh| < k <= 2 * |lh| ==>
      CommitWrites(d, start, lh, data)[k] == Write(lh[k - |lh| - 1], data[k - |lh| - 1])
    ensures k == 2 * |lh| + 1 ==>
      CommitWrites(d, start, lh, data)[k] == Write(start, EncodeHead(EncodeHead(d[start], lh), []))
  {}

  lemma CommitWritesInRange(d: Disk, start: int, lh: seq<int>, data: seq<Block>)
    requires CommitReady(d, start, lh, data)
    ensures InRange(d, CommitWrites(d, start, lh, data))
  {
    if lh != [] {
      forall k | 0 <= k < |CommitWrites(d, start, lh, data)|
        ensures CommitWrites(d, start, lh, data)[k].dst < |d|
      {
        CommitWritesAt(d, start, lh, data, k);
      }
    }
  }

  /** The home blocks as the transaction wants them. */
  ghost predicate AllNew(e: Disk, d: Disk, start: int, lh: seq<int>, data: seq<Block>)
    requires |lh| == |data|
  {
    && GoodDisk(e, start) && |e| == |d|
    && forall b: int :: Home(|d|, start, b) ==>
      Committed(e, start, b) == if b in lh then data[IndexOf(lh, b)] else d[b]
  }

  /** The home blocks as they were before the transaction. */
  ghost predicate AllOld(e: Disk, d: Disk, start: int) {
    && GoodDisk(e, start) && |e| == |d|
    && forall b: int :: Home(|d|, start, b) ==> Committed(e, start, b) == d[b]
  }

  lemma CommitBeforeHead(d: Disk, start: int, lh: seq<int>, data: seq<Block>, k: nat)
    requires CommitReady(d, start, lh, data) && k <= |lh| && lh != []
    requires InRange(d, CommitWrites(d, start, lh, data))
    ensures k <= |CommitWrites(d, start, lh, data)|
    ensures AllOld(Apply(d, CommitWrites(d, start, lh, data)[..k]), d, start)
  {
    var ws := CommitWrites(d, start, lh, data);
    var e := Apply(d, ws[..k]);
    CommitDsts(d, start, lh, data);
    ApplyMiss(d, ws[..k], start);
    EmptyHead(e, start);
    forall b: int | Home(|d|, start, b) ensures e[b] == d[b] {
      ApplyMiss(d, ws[..k], b);
    }
  }

  /** The destination of write i of a commit of n blocks. */
  function CommitDst(start: int, lh: seq<int>, i: nat): (b: int)
    requires i <= 2 * |lh| + 1
  {
    if i < |lh| then start + 1 + i
    else if i == |lh| || i == 2 * |lh| + 1 then start
    else lh[i - |lh| - 1]
  }

  lemma CommitDsts(d: Disk, start: int, lh: seq<int>, data: seq<Block>)
    requires CommitReady(d, start, lh, data) && lh != []
    ensures |CommitWrites(d, start, lh, data)| == 2 * |lh| + 2
    ensures forall i :: 0 <= i < 2 * |lh| + 2 ==> CommitWrites(d, start, lh, data)[i].dst == CommitDst(start, lh, i)
  {
    forall i | 0 <= i < 2 * |lh| + 2
      ensures |CommitWrites(d, start, lh, data)| == 2 * |lh| + 2
      ensures CommitWrites(d, start, lh, data)[i].dst == CommitDst(start, lh, i)
    {
      CommitWritesAt(d, start, lh, data, i);
    }
  }

  lemma CommitLoggedOne(d: Disk, start: int, lh: seq<int>, data: seq<Block>, k: nat, i: nat)
    requires CommitReady(d, start, lh, data) && i < |lh| < k <= 2 * |lh| + 1
    requires InRange(d, CommitWrites(d, start, lh, data))
    ensures k <= |CommitWrites(d, start, lh, data)|
    ensures Apply(d, CommitWrites(d, start, lh, data)[..k])[start + 1 + i] == data[i]
  {
    CommitDsts(d, start, lh, data);
    CommitWritesAt(d, start, lh, data, i);
    ApplyHit(d, CommitWrites(d, start, lh, data)[..k], i);
  }

  /** While home blocks are being installed, the header names the transaction
      and the log holds its blocks. */
  lemma CommitLogged(d: Disk, start: int, lh: seq<int>, data: seq<Block>, k: nat)
    requires CommitReady(d, start, lh, data) && lh != []
    requires InRange(d, CommitWrites(d, start, lh, data))
    requires |lh| < k <= 2 * |lh| + 1 <= |CommitWrites(d, start, lh, data)|
    ensures var e := Apply(d, CommitWrites(d, start, lh, data)[..k]);
      && e[start] == EncodeHead(d[start], lh)
      && forall i :: 0 <= i < |lh| ==> e[start + 1 + i] == data[i]
  {
    var ws := CommitWrites(d, start, lh, data);
    CommitDsts(d, start, lh, data);
    CommitWritesAt(d, start, lh, data, |lh|);
    ApplyHit(d, ws[..k], |lh|);
    forall i | 0 <= i < |lh| ensures Apply(d, ws[..k])[start + 1 + i] == data[i] {
      CommitLoggedOne(d, start, lh, data, k, i);
    }
  }

  lemma LoggedMeansNew(e: Disk, d: Disk, start: int, lh: seq<int>, data: seq<Block>)
    requires CommitReady(d, start, lh, data) && |e| == |d|
    requires e[start] == EncodeHead(d[start], lh)
    requires forall i :: 0 <= i < |lh| ==> e[start + 1 + i] == data[i]
    requires forall b: int :: Home(|d|, start, b) && b !in lh ==> e[b] == d[b]
    ensures AllNew(e, d, start, lh, data)
  {
    assert Head(e, start) == lh;
    forall b: int | Home(|d|, start, b)
      ensures Committed(e, start, b) == if b in lh then data[IndexOf(lh, b)] else d[b]
    {}
  }

  lemma CommitAfterHead(d: Disk, start: int, lh: seq<int>, data: seq<Block>, k: nat)
    requires CommitReady(d, start, lh, data) && lh != []
    requires InRange(d, CommitWrites(d, start, lh, data))
    requires |lh| < k <= 2 * |lh| + 1 <= |CommitWrites(d, start, lh, data)|
    ensures AllNew(Apply(d, CommitWrites(d, start, lh, data)[..k]), d, start, lh, data)
  {
    var ws := CommitWrites(d, start, lh, data);
    forall b: int | Home(|d|, start, b) && b !in lh ensures Apply(d, ws[..k])[b] == d[b] {
      CommitDsts(d, start, lh, data);
      ApplyMiss(d, ws[..k], b);
    }
    CommitLogged(d, start, lh, data, k);
    LoggedMeansNew(Apply(d, ws[..k]), d, start, lh, data);
  }

  lemma CommitComplete(d: Disk, start: int, lh: seq<int>, data: seq<Block>)
    requires CommitReady(d, start, lh, data) && lh != []
    requires InRange(d, CommitWrites(d, start, lh, data))
    ensures AllNew(Apply(d, CommitWrites(d, start, lh, data)), d, start, lh, data)
    ensures Head(Apply(d, CommitWrites(d, start, lh, data)), start) == []
  {
    var ws := CommitWrites(d, start, lh, data);
    var e, n := Apply(d, ws), |lh|;
    CommitWritesAt(d, start, lh, data, 2 * n + 1);
    ApplyHit(d, ws, 2 * n + 1);
    EmptyHead(e, start);
    forall b: int | Home(|d|, start, b) ensures e[b] == if b in lh then data[IndexOf(lh, b)] else d[b] {
      if b in lh {
        CommitInstalls(d, start, lh, data, IndexOf(lh, b));
      } else {
        CommitDsts(d, start, lh, data);
        ApplyMiss(d, ws, b);
      }
    }
  }

  lemma CommitInstalls(d: Disk, start: int, lh: seq<int>, data: seq<Block>, i: nat)
    requires CommitReady(d, start, lh, data) && i < |lh| && InRange(d, CommitWrites(d, start, lh, data))
    ensures Apply(d, CommitWrites(d, start, lh, data))[lh[i]] == data[i]
  {
    var ws, k := CommitWrites(d, start, lh, data), |lh| + 1 + i;
    CommitDsts(d, start, lh, data);
    CommitWritesAt(d, start, lh, data, k);
    forall j | k < j < |ws| ensures ws[j].dst != ws[k].dst {
      DistinctPairs(lh);
    }
    ApplyHit(d, ws, k);
  }

  /** Where a commit that crashed after k writes stands: everything old up to and
      including the last log block, everything new once the header is on disk. */
  lemma CommitPrefix(d: Disk, start: int, lh: seq<int>, data: seq<Block>, k: nat)
    requires CommitReady(d, start, lh, data) && k <= |CommitWrites(d, start, lh, data)|
    ensures InRange(d, CommitWrites(d, start, lh, data)[..k])
    ensures var e := Apply(d, CommitWrites(d, start, lh, data)[..k]);
      if k <= |lh| then AllOld(e, d, start) else AllNew(e, d, start, lh, data)
  {
    CommitWritesInRange(d, start, lh, data);
    var ws := CommitWrites(d, start, lh, data);
    if lh == [] {
      EmptyHead(d, start);
    } else if k <= |lh| {
      CommitBeforeHead(d, start, lh, data, k);
    } else {
      CommitWritesAt(d, start, lh, data, 0);
      if k <= 2 * |lh| + 1 {
        CommitAfterHead(d, start, lh, data, k);
      } else {
        assert ws[..k] == ws;
        CommitComplete(d, start, lh, data);
      }
    }
  }

  /** Crash atomicity: commit crashes after any k of its writes, any number of
      recovery attempts crash in turn, and then one recovery finishes.  The home
      blocks are all old if the first header write had not reached the disk and
      all new if it had. */
  lemma CrashAtomicity(d: Disk, start: int, lh: seq<int>, data: seq<Block>, k: nat, crashes: seq<nat>)
    requires CommitReady(d, start, lh, data) && k <= |CommitWrites(d, start, lh, data)|
    ensures InRange(d, CommitWrites(d, start, lh, data)[..k])
    ensures GoodDisk(Apply(d, CommitWrites(d, start, lh, data)[..k]), start)
    ensures var crashed := Apply(d, CommitWrites(d, start, lh, data)[..k]);
      var r := Recover(CrashedRecoveries(crashed, start, crashes), start);
      && Head(r, start) == []
      && |r| == |d|
      && forall b: int :: Home(|d|, start, b) ==>
        r[b] == if k > |lh| && b in lh then data[IndexOf(lh, b)] else d[b]
  {
    CommitPrefix(d, start, lh, data, k);
    var crashed := Apply(d, CommitWrites(d, start, lh, data)[..k]);
    CrashedRecoveriesKeep(crashed, start, crashes);
    RecoverInstalls(CrashedRecoveries(crashed, start, crashes), start);
  }
}
