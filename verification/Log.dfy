/** The in-memory side of kernel/log.c as the code has it: a struct updated in
    place, loops that copy one block at a time, every bwrite recorded.  Each
    method is proved to perform exactly the writes module Journal reasons about. */
module Log {
  import opened Params
  import opened Sets
  import opened Journal

  /** The disk together with every bwrite it has served. */
  datatype Device = Device(blocks: Disk, written: seq<Write>)

  function Perform(dev: Device, ws: seq<Write>): (r: Device)
    requires InRange(dev.blocks, ws)
    ensures |r.blocks| == |dev.blocks|
  {
    Device(Apply(dev.blocks, ws), dev.written + ws)
  }

  lemma {:induction false} ApplyAppend(d: Disk, us: seq<Write>, vs: seq<Write>)
    requires InRange(d, us) && InRange(d, vs)
    ensures InRange(d, us + vs)
    ensures Apply(Apply(d, us), vs) == Apply(d, us + vs)
  {
    if vs == [] {
      assert us + vs == us;
    } else {
      ApplyAppend(d, us, vs[..|vs| - 1]);
      assert (us + vs)[..|us + vs| - 1] == us + vs[..|vs| - 1];
    }
  }

  lemma ApplySingle(d: Disk, w: Write)
    requires 0 <= w.dst < |d|
    ensures Apply(d, [w]) == d[w.dst := w.data]
  {
    assert [w][..0] == [];
    assert Apply(d, [w][..0]) == d;
  }

  lemma PerformAppend(dev: Device, us: seq<Write>, vs: seq<Write>)
    requires InRange(dev.blocks, us) && InRange(dev.blocks, vs)
    ensures InRange(dev.blocks, us + vs)
    ensures Perform(Perform(dev, us), vs) == Perform(dev, us + vs)
  {
    ApplyAppend(dev.blocks, us, vs);
    assert dev.written + us + vs == dev.written + (us + vs);
  }

  lemma PerformNext(dev: Device, ws: seq<Write>, k: nat)
    requires InRange(dev.blocks, ws) && k < |ws|
    ensures Perform(Perform(dev, ws[..k]), [ws[k]]) == Perform(dev, ws[..k + 1])
  {
    PerformAppend(dev, ws[..k], [ws[k]]);
    assert ws[..k + 1] == ws[..k] + [ws[k]];
  }

  /** The first k of the writes ws, one after the other. */
  ghost function PerformFirst(dev: Device, ws: seq<Write>, k: nat): (r: Device)
    requires InRange(dev.blocks, ws) && k <= |ws|
    ensures |r.blocks| == |dev.blocks|
  {
    if k == 0 then dev else Perform(PerformFirst(dev, ws, k - 1), [ws[k - 1]])
  }

  lemma {:induction false} PerformFirstIs(dev: Device, ws: seq<Write>, k: nat)
    requires InRange(dev.blocks, ws) && k <= |ws|
    ensures PerformFirst(dev, ws, k) == Perform(dev, ws[..k])
  {
    if k == 0 {
      assert dev.written + ws[..0] == dev.written;
    } else {
      PerformFirstIs(dev, ws, k - 1);
      PerformNext(dev, ws, k - 1);
    }
  }

  lemma PerformAll(dev: Device, ws: seq<Write>)
    requires InRange(dev.blocks, ws)
    ensures PerformFirst(dev, ws, |ws|) == Perform(dev, ws)
  {
    PerformFirstIs(dev, ws, |ws|);
    assert ws[..|ws|] == ws;
  }

  function Blocks(lh: seq<int>): (s: set<int>) {
    set b | b in lh
  }

  lemma BlocksNext(lh: seq<int>, k: nat)
    requires k < |lh|
    ensures Blocks(lh[..k + 1]) == Blocks(lh[..k]) + {lh[k]}
  {
    assert lh[..k + 1] == lh[..k] + [lh[k]];
  }

  /** The buffered contents of the logged blocks, in log order. */
  function Gather(lh: seq<int>, cache: map<int, Block>): (data: seq<Block>)
    requires Blocks(lh) <= cache.Keys
    ensures |data| == |lh|
    ensures forall i {:trigger data[i]} :: 0 <= i < |lh| ==> lh[i] in cache && data[i] == cache[lh[i]]
  {
    if lh == [] then []
    else
      assert lh[|lh| - 1] in Blocks(lh);
      Gather(lh[..|lh| - 1], cache) + [cache[lh[|lh| - 1]]]
  }

  function LogArea(d: Disk, start: int, n: nat): (data: seq<Block>)
    requires Fits(d, start) && n <= LOGBLOCKS
    ensures |data| == n
  {
    d[start + 1..start + 1 + n]
  }

  lemma InstallInRange(d: Disk, start: int, lh: seq<int>, data: seq<Block>)
    requires Homes(|d|, start, lh) && |data| == |lh|
    ensures InRange(d, InstallWrites(lh, data))
  {
    forall i | 0 <= i < |lh| ensures 0 <= InstallWrites(lh, data)[i].dst < |d| {
      assert Home(|d|, start, lh[i]);
    }
  }

  /** install_trans never writes to the log area. */
  lemma InstallKeepsLog(d: Disk, start: int, lh: seq<int>, data: seq<Block>, k: nat, b: int)
    requires Homes(|d|, start, lh) && |data| == |lh| && k <= |lh| && 0 <= b < |d| && InLog(start, b)
    requires InRange(d, InstallWrites(lh, data))
    ensures Apply(d, InstallWrites(lh, data)[..k])[b] == d[b]
  {
    var ws := InstallWrites(lh, data)[..k];
    forall i | 0 <= i < k ensures ws[i].dst != b {
      assert Home(|d|, start, lh[i]);
    }
    ApplyMiss(d, ws, b);
  }

  /** The log block that install_trans is about to read is as it was at the start. */
  lemma {:induction false} InstallReads(dev: Device, start: int, lh: seq<int>, data: seq<Block>, k: nat, b: int)
    requires Homes(|dev.blocks|, start, lh) && |data| == |lh| && k <= |lh|
    requires 0 <= b < |dev.blocks| && InLog(start, b)
    requires InRange(dev.blocks, InstallWrites(lh, data))
    ensures PerformFirst(dev, InstallWrites(lh, data), k).blocks[b] == dev.blocks[b]
  {
    if k > 0 {
      InstallReads(dev, start, lh, data, k - 1, b);
      assert Home(|dev.blocks|, start, lh[k - 1]);
      ApplySingle(PerformFirst(dev, InstallWrites(lh, data), k - 1).blocks, InstallWrites(lh, data)[k - 1]);
    }
  }

  /** install_trans reads the block it writes from the log as it was at first. */
  lemma InstallNext(dev: Device, start: int, lh: seq<int>, data: seq<Block>, ws: seq<Write>, k: nat)
    requires Homes(|dev.blocks|, start, lh) && Fits(dev.blocks, start) && k < |lh| <= LOGBLOCKS
    requires data == LogArea(dev.blocks, start, |lh|) && ws == InstallWrites(lh, data) && InRange(dev.blocks, ws)
    ensures 0 <= lh[k] < |dev.blocks| && ws[k] == Write(lh[k], PerformFirst(dev, ws, k).blocks[start + 1 + k])
  {
    InstallReads(dev, start, lh, data, k, start + 1 + k);
    assert Home(|dev.blocks|, start, lh[k]);
  }

  /** bunpin of the first k listed blocks. */
  ghost function Unpin(c: map<int, Block>, lh: seq<int>, k: nat): (r: map<int, Block>)
    requires k <= |lh|
  {
    if k == 0 then c else Unpin(c, lh, k - 1) - {lh[k - 1]}
  }

  lemma {:induction false} UnpinIs(c: map<int, Block>, lh: seq<int>, k: nat)
    requires k <= |lh|
    ensures Unpin(c, lh, k) == c - Blocks(lh[..k])
  {
    if k > 0 {
      UnpinIs(c, lh, k - 1);
      BlocksNext(lh, k - 1);
    }
  }

  lemma UnpinAll(c: map<int, Block>, lh: seq<int>)
    ensures Unpin(c, lh, |lh|) == c - Blocks(lh)
  {
    UnpinIs(c, lh, |lh|);
    assert lh[..|lh|] == lh;
  }

  lemma LogNext(start: int, lh: seq<int>, cache: map<int, Block>, ws: seq<Write>, k: nat)
    requires Blocks(lh) <= cache.Keys && ws == LogWrites(start, Gather(lh, cache)) && k < |lh|
    ensures lh[k] in cache && ws[k] == Write(start + k + 1, cache[lh[k]])
  {
    assert lh[k] in Blocks(lh);
  }

  lemma LogInRange(d: Disk, start: int, data: seq<Block>)
    requires Fits(d, start) && |data| <= LOGBLOCKS
    ensures InRange(d, LogWrites(start, data)) && |LogWrites(start, data)| == |data|
  {}

  lemma LogWritesRead(d: Disk, start: int, data: seq<Block>)
    requires Fits(d, start) && |data| <= LOGBLOCKS
    ensures InRange(d, LogWrites(start, data))
    ensures Apply(d, LogWrites(start, data))[start] == d[start]
    ensures LogArea(Apply(d, LogWrites(start, data)), start, |data|) == data
  {
    ApplyMiss(d, LogWrites(start, data), start);
    forall i | 0 <= i < |data| ensures Apply(d, LogWrites(start, data))[start + 1 + i] == data[i] {
      ApplyHit(d, LogWrites(start, data), i);
    }
  }

  lemma PerformHead(dev: Device, start: int, data: Block)
    requires Fits(dev.blocks, start)
    ensures Perform(dev, [Write(start, data)]) == Device(dev.blocks[start := data], dev.written + [Write(start, data)])
    ensures forall n: nat :: n <= LOGBLOCKS ==>
      LogArea(Perform(dev, [Write(start, data)]).blocks, start, n) == LogArea(dev.blocks, start, n)
  {
    ApplySingle(dev.blocks, Write(start, data));
  }

  /** The two stages of recover_from_log() put together are RecoverWrites. */
  lemma RecoverStages(dev: Device, start: int)
    requires GoodDisk(dev.blocks, start)
    ensures var lh := Head(dev.blocks, start);
      var ws := InstallWrites(lh, LogArea(dev.blocks, start, |lh|));
      && InRange(dev.blocks, ws)
      && Perform(dev, ws).blocks[start] == dev.blocks[start]
      && Perform(Perform(dev, ws), [Write(start, EncodeHead(dev.blocks[start], []))])
         == Perform(dev, RecoverWrites(dev.blocks, start))
  {
    var lh := Head(dev.blocks, start);
    var data := LogArea(dev.blocks, start, |lh|);
    var ws := InstallWrites(lh, data);
    InstallInRange(dev.blocks, start, lh, data);
    InstallKeepsLog(dev.blocks, start, lh, data, |lh|, start);
    assert ws[..|lh|] == ws;
    PerformAppend(dev, ws, [Write(start, EncodeHead(dev.blocks[start], []))]);
  }

  /** After write_log and the first write_head. */
  lemma CommitLogStages(dev: Device, start: int, lh: seq<int>, data: seq<Block>)
    requires CommitReady(dev.blocks, start, lh, data)
    ensures InRange(dev.blocks, LogWrites(start, data))
    ensures var dev1 := Perform(dev, LogWrites(start, data));
      var dev2 := Perform(dev1, [Write(start, EncodeHead(dev.blocks[start], lh))]);
      && dev1.blocks[start] == dev.blocks[start]
      && dev2.blocks[start] == EncodeHead(dev.blocks[start], lh)
      && LogArea(dev2.blocks, start, |lh|) == data
  {
    LogWritesRead(dev.blocks, start, data);
    PerformHead(Perform(dev, LogWrites(start, data)), start, EncodeHead(dev.blocks[start], lh));
  }

  /** After install_trans and the second write_head: all of CommitWrites. */
  lemma CommitHomeStages(dev: Device, start: int, lh: seq<int>, data: seq<Block>)
    requires CommitReady(dev.blocks, start, lh, data) && lh != []
    requires InRange(dev.blocks, LogWrites(start, data))
    ensures InRange(dev.blocks, InstallWrites(lh, data))
    ensures InRange(dev.blocks, CommitWrites(dev.blocks, start, lh, data))
    ensures var head := EncodeHead(dev.blocks[start], lh);
      var dev2 := Perform(Perform(dev, LogWrites(start, data)), [Write(start, head)]);
      var dev3 := Perform(dev2, InstallWrites(lh, data));
      && dev3.blocks[start] == dev2.blocks[start]
      && Perform(dev3, [Write(start, EncodeHead(head, []))]) == Perform(dev, CommitWrites(dev.blocks, start, lh, data))
  {
    var logs, installs := LogWrites(start, data), InstallWrites(lh, data);
    var head := EncodeHead(dev.blocks[start], lh);
    var dev2 := Perform(Perform(dev, logs), [Write(start, head)]);
    InstallInRange(dev.blocks, start, lh, data);
    InstallKeepsLog(dev2.blocks, start, lh, data, |lh|, start);
    assert installs[..|lh|] == installs;
    PerformAppend(dev, logs, [Write(start, head)]);
    PerformAppend(dev, logs + [Write(start, head)], installs);
    PerformAppend(dev, logs + [Write(start, head)] + installs, [Write(start, EncodeHead(head, []))]);
  }

  /** log_write's effect on log.lh: absorb a block that is already there. */
  function Absorb(lh: seq<int>, b: int): (r: seq<int>)
    ensures b in r && lh <= r && (r == lh <==> b in lh)
    ensures Distinct(lh) ==> Distinct(r)
  {
    if b in lh then lh else lh + [b]
  }

  /** begin_op's admission test. */
  predicate MayBegin(committing: bool, n: nat, outstanding: nat) {
    !committing && n + (outstanding + 1) * MAXOPBLOCKS <= LOGBLOCKS
  }

  class LogState {
    const start: int
    const block: array<int>           // log.lh.block
    var n: nat                        // log.lh.n
    var outstanding: nat
    var committing: bool
    var dev: Device
    var cache: map<int, Block>        // the pinned buffers of bio.c

    ghost predicate Valid()
      reads this, block
    {
      && block.Length == LOGBLOCKS
      && n <= LOGBLOCKS
      && HasHead(dev.blocks, start)
      && GoodList(|dev.blocks|, start, block[..n])
      && cache.Keys == Blocks(block[..n])
    }

    /** initlog; what mkfs and earlier runs left on the disk is recovered first. */
    constructor (d: Disk, logstart: int)
      requires GoodDisk(d, logstart)
      ensures Valid() && fresh(block)
      ensures start == logstart && n == 0 && outstanding == 0 && !committing && cache == map[]
      ensures dev == Perform(Device(d, []), RecoverWrites(d, logstart))
    {
      start, dev := logstart, Device(d, []);
      block := new int[LOGBLOCKS];
      n, outstanding, committing, cache := 0, 0, false, map[];
      new;
      RecoverFromLog();
    }

    method Bwrite(b: int, data: Block)
      requires 0 <= b < |dev.blocks|
      modifies this`dev
      ensures dev == Perform(old(dev), [Write(b, data)])
    {
      ApplySingle(dev.blocks, Write(b, data));
      dev := Device(dev.blocks[b := data], dev.written + [Write(b, data)]);
    }

    method ReadHead()
      requires block.Length == LOGBLOCKS && HasHead(dev.blocks, start)
      modifies this`n, block
      ensures n == dev.blocks[start][0] && block[..n] == Head(dev.blocks, start)
    {
      var lh := dev.blocks[start];
      n := lh[0];
      for i := 0 to n
        invariant n == lh[0] && block[..i] == lh[1..1 + i]
      {
        block[i] := lh[1 + i];
      }
    }

    method WriteHead()
      requires block.Length == LOGBLOCKS && n <= LOGBLOCKS && HasHead(dev.blocks, start)
      modifies this`dev
      ensures dev == Perform(old(dev), [Write(start, EncodeHead(old(dev).blocks[start], block[..n]))])
    {
      var hb := dev.blocks[start];
      hb := hb[0 := n];
      for i := 0 to n
        invariant |hb| == BLOCK_WORDS && hb[0] == n && hb[1..1 + i] == block[..i]
        invariant forall k :: i < k < BLOCK_WORDS ==> hb[k] == dev.blocks[start][k]
      {
        hb := hb[1 + i := block[i]];
      }
      assert hb == EncodeHead(dev.blocks[start], block[..n]);
      Bwrite(start, hb);
    }

    method WriteLog()
      requires block.Length == LOGBLOCKS && n <= LOGBLOCKS && Fits(dev.blocks, start)
      requires Blocks(block[..n]) <= cache.Keys
      modifies this`dev
      ensures InRange(old(dev).blocks, LogWrites(start, Gather(block[..n], cache)))
      ensures dev == Perform(old(dev), LogWrites(start, Gather(block[..n], cache)))
    {
      ghost var d, lh := dev, block[..n];
      ghost var ws := LogWrites(start, Gather(lh, cache));
      LogInRange(d.blocks, start, Gather(lh, cache));
      for tail := 0 to n
        invariant dev == PerformFirst(d, ws, tail)
      {
        LogNext(start, lh, cache, ws, tail);
        var from := cache[block[tail]];
        Bwrite(start + tail + 1, from);
      }
      PerformAll(d, ws);
    }

    /** One trip round install_trans's loop. */
    method InstallOne(tail: nat, recovering: bool)
      requires tail < LOGBLOCKS == block.Length && Fits(dev.blocks, start)
      requires 0 <= block[tail] < |dev.blocks|
      modifies this`dev, this`cache
      ensures dev == Perform(old(dev), [Write(block[tail], old(dev).blocks[start + 1 + tail])])
      ensures cache == if recovering then old(cache) else old(cache) - {block[tail]}
    {
      var lbuf := dev.blocks[start + tail + 1];
      Bwrite(block[tail], lbuf);
      if !recovering {
        cache := cache - {block[tail]};
      }
    }

    method InstallTrans(recovering: bool)
      requires block.Length == LOGBLOCKS && n <= LOGBLOCKS && Fits(dev.blocks, start)
      requires Homes(|dev.blocks|, start, block[..n])
      modifies this`dev, this`cache
      ensures cache == if recovering then old(cache) else old(cache) - Blocks(block[..n])
      ensures var ws := InstallWrites(block[..n], LogArea(old(dev).blocks, start, n));
        InRange(old(dev).blocks, ws) && dev == Perform(old(dev), ws)
    {
      ghost var d, c, lh, data := dev, cache, block[..n], LogArea(dev.blocks, start, n);
      ghost var ws := InstallWrites(lh, data);
      InstallInRange(d.blocks, start, lh, data);
      for tail := 0 to n
        invariant dev == PerformFirst(d, ws, tail)
        invariant cache == if recovering then c else Unpin(c, lh, tail)
      {
        InstallNext(d, start, lh, data, ws, tail);
        InstallOne(tail, recovering);
      }
      PerformAll(d, ws);
      UnpinAll(c, lh);
    }

    method RecoverFromLog()
      requires block.Length == LOGBLOCKS && GoodDisk(dev.blocks, start) && cache == map[]
      modifies this, block
      ensures n == 0 && cache == map[] && Valid()
      ensures outstanding == old(outstanding) && committing == old(committing)
      ensures InRange(old(dev).blocks, RecoverWrites(old(dev).blocks, start))
      ensures dev == Perform(old(dev), RecoverWrites(old(dev).blocks, start))
    {
      RecoverStages(dev, start);
      RecoverInstalls(dev.blocks, start);
      ReadHead();
      InstallTrans(true);
      n := 0;
      assert block[..n] == [];
      WriteHead();
    }

    /** Commit performs CommitWrites, in order, and nothing else. */
    method Commit()
      requires Valid() && dev.blocks[start][0] == 0
      modifies this`dev, this`cache, this`n
      ensures Valid() && n == 0 && cache == map[]
      ensures var ws := CommitWrites(old(dev).blocks, start, block[..old(n)], Gather(block[..old(n)], old(cache)));
        InRange(old(dev).blocks, ws) && dev == Perform(old(dev), ws)
    {
      ghost var d, lh, data := dev, block[..n], Gather(block[..n], cache);
      if n > 0 {
        WriteLog();
        CommitLogStages(d, start, lh, data);
        WriteHead();
        InstallAndClear(d, data);
      } else {
        assert d.written + [] == d.written;
      }
    }

    /** The second half of commit(), d being the device before its first half. */
    method InstallAndClear(ghost d: Device, ghost data: seq<Block>)
      requires block.Length == LOGBLOCKS && 0 < n <= LOGBLOCKS
      requires CommitReady(d.blocks, start, block[..n], data)
      requires InRange(d.blocks, LogWrites(start, data))
      requires dev == Perform(Perform(d, LogWrites(start, data)),
                              [Write(start, EncodeHead(d.blocks[start], block[..n]))])
      requires dev.blocks[start] == EncodeHead(d.blocks[start], block[..n])
      requires LogArea(dev.blocks, start, n) == data
      modifies this`dev, this`cache, this`n
      ensures n == 0 && cache == old(cache) - Blocks(block[..old(n)])
      ensures HasHead(dev.blocks, start)
      ensures var ws := CommitWrites(d.blocks, start, block[..old(n)], data);
        InRange(d.blocks, ws) && dev == Perform(d, ws)
    {
      CommitHomeStages(d, start, block[..n], data);
      InstallTrans(false);
      n := 0;
      assert block[..n] == [];
      ghost var d3 := dev;
      WriteHead();
      PerformHead(d3, start, EncodeHead(d3.blocks[start], []));
    }

    /** begin_op, one trip round its loop; false means it goes to sleep. */
    method BeginOp() returns (admitted: bool)
      modifies this`outstanding
      ensures admitted == MayBegin(committing, n, old(outstanding))
      ensures admitted <==> !committing && n + 10 * old(outstanding) + 10 <= 30
      ensures outstanding == old(outstanding) + if admitted then 1 else 0
    {
      if committing {
        return false;
      } else if n + (outstanding + 1) * MAXOPBLOCKS > LOGBLOCKS {
        return false;
      } else {
        outstanding := outstanding + 1;
        return true;
      }
    }

    /** end_op's critical section. */
    method EndOp() returns (panic: bool, doCommit: bool)
      requires outstanding >= 1
      modifies this`outstanding, this`committing
      ensures outstanding == old(outstanding) - 1
      ensures panic == old(committing)
      ensures doCommit == (!panic && outstanding == 0)
      ensures committing == (old(committing) || outstanding == 0)
    {
      doCommit := false;
      outstanding := outstanding - 1;
      panic := committing;
      if !panic && outstanding == 0 {
        doCommit := true;
        committing := true;
      }
    }

    /** log_write on a locked buffer for home block b that now holds data. */
    method LogWrite(b: int, data: Block) returns (panic: bool)
      requires Valid() && Home(|dev.blocks|, start, b)
      modifies this`n, this`cache, block
      ensures Valid()
      ensures panic == (old(n) >= LOGBLOCKS || outstanding < 1)
      ensures panic ==> block[..n] == old(block[..n]) && cache == old(cache)
      ensures !panic ==> block[..n] == Absorb(old(block[..n]), b) && cache == old(cache)[b := data]
    {
      ghost var lh := block[..n];
      if n >= LOGBLOCKS || outstanding < 1 {
        return true;
      }
      var i := 0;
      while i < n && block[i] != b
        invariant 0 <= i <= n
        invariant b !in block[..i]
      {
        i := i + 1;
      }
      block[i] := b;
      if i == n {
        n := n + 1;
        assert block[..n] == lh + [b];
      } else {
        assert block[..n] == lh;
        assert lh[i] == b;
      }
      cache := cache[b := data];
      return false;
    }
  }
}
