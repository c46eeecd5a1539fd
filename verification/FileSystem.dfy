/** The operations of kernel/fs.c and filewrite of kernel/file.c on blocks,
    inodes and the free map, updated in place, each block that goes through
    log_write recorded. */
module FileSystem {
  import opened Params
  import opened LogCalls
  import opened Sets
  import opened Bitmap
  import opened FileLayout

  const IPB := 16   // inodes per block
  const CHUNK := ((MAXOPBLOCKS - 1 - 1 - 2) / 2) * BSIZE   // filewrite's max

  /** What bmap may do: map more blocks of inode i.  No byte of any file changes. */
  ghost predicate Grown(fs: Fs, gs: Fs, i: int) {
    Wrote(fs, gs, i, 0, []) && SameSizes(fs, gs) && Keeps(fs, gs)
  }

  lemma MetaUsed(fs: Fs, owner: map<int, Slot>)
    requires Own(fs, owner)
    ensures forall b :: 0 <= b < fs.meta ==> fs.used[b]
  {
    forall b | 0 <= b < fs.meta ensures fs.used[b] {
      assert UsedOk(fs, owner, b);
    }
  }

  lemma GrownTrans(fs: Fs, gs: Fs, hs: Fs, i: int)
    requires Grown(fs, gs, i) && Grown(gs, hs, i)
    ensures Grown(fs, hs, i)
  {
    KeepsTrans(fs, gs, hs);
  }

  /** The indirect block, if there is one. */
  function Indirect(ip: Inode): (s: set<int>)
    requires InodeOk(ip)
  {
    if ip.addrs[NDIRECT] == 0 then {} else {ip.addrs[NDIRECT]}
  }

  lemma WriteBlockSees(fs: Fs, gs: Fs, hs: Fs, owner: map<int, Slot>, i: int, off: int, d: seq<int>)
    requires Grown(fs, gs, i) && Own(gs, owner) && IsInode(gs, i) && 0 <= off < MAXFILE * BSIZE
    requires Store(gs, hs, i, off / BSIZE, off % BSIZE, d)
    ensures Own(hs, owner) && Wrote(fs, hs, i, off, d) && SameSizes(fs, hs) && Keeps(fs, hs)
    ensures Ref(hs, i, FileSlot(off / BSIZE)) != 0
  {
    StoreShape(gs, hs, i, off / BSIZE, off % BSIZE, d);
    StoreOwn(gs, hs, owner, i, off / BSIZE, off % BSIZE, d);
    StoreSees(gs, hs, owner, i, off / BSIZE, off % BSIZE, d);
    KeepsTrans(fs, gs, hs);
  }

  /** The number of blocks that n bytes from off on touch. */
  function Span(off: int, n: int): (k: int)
    requires 0 <= off && 0 <= n
  {
    if n == 0 then 0 else (off + n - 1) / BSIZE - off / BSIZE + 1
  }

  /** The most blocks that writing them allocates: a first block that starts
      before off is there already, the indirect block may be new. */
  function MarkSpan(off: int, n: int): (k: int)
    requires 0 <= off && 0 <= n
  {
    Span(off, n) + 1 - (if n > 0 && off % BSIZE != 0 then 1 else 0)
  }

  ghost predicate Budget(c: int, off: int, data: set<int>, marks: set<int>, indirect: bool) {
    && |data| <= c
    && |marks| <= c + (if indirect then 1 else 0) - (if c > 0 && off % BSIZE != 0 then 1 else 0)
  }

  /** What differs about block b, its contents or its mark, is in the log. */
  ghost predicate CoversAt(fs: Fs, gs: Fs, logged: set<int>, m: int, b: int) {
    && (0 <= b < |fs.disk| && b < |gs.disk| && gs.disk[b] != fs.disk[b] ==> b in logged)
    && (0 <= b < |fs.used| && b < |gs.used| && gs.used[b] != fs.used[b] ==> m + b / BPB in logged)
  }

  /** Every block that differs on disk has been logged, and so has the bitmap
      block of every mark that differs, the bitmap being at m. */
  ghost predicate Covers(fs: Fs, gs: Fs, was: set<int>, logged: set<int>, m: int) {
    && was <= logged && |gs.disk| == |fs.disk| && |gs.used| == |fs.used|
    && forall b {:trigger CoversAt(fs, gs, logged, m, b)} :: CoversAt(fs, gs, logged, m, b)
  }

  lemma CoversTrans(fs: Fs, gs: Fs, hs: Fs, l0: set<int>, l1: set<int>, l2: set<int>, m: int)
    requires Covers(fs, gs, l0, l1, m) && Covers(gs, hs, l1, l2, m)
    ensures Covers(fs, hs, l0, l2, m)
  {
    forall b ensures CoversAt(fs, hs, l2, m, b) {
      assert CoversAt(fs, gs, l1, m, b) && CoversAt(gs, hs, l2, m, b);
    }
  }

  lemma CoversSame(fs: Fs, gs: Fs, was: set<int>, logged: set<int>, m: int)
    requires gs.disk == fs.disk && gs.used == fs.used && was <= logged
    ensures Covers(fs, gs, was, logged, m)
  {
    forall b ensures CoversAt(fs, gs, logged, m, b) {}
  }

  /** One block's contents, and one mark. */
  lemma CoversOne(fs: Fs, gs: Fs, was: set<int>, logged: set<int>, m: int, b: int)
    requires 0 <= b < |fs.disk| == |gs.disk| == |fs.used| == |gs.used| && was <= logged
    requires gs.disk == fs.disk[b := gs.disk[b]] && (gs.disk == fs.disk || b in logged)
    requires gs.used == fs.used[b := gs.used[b]] && (gs.used == fs.used || m + b / BPB in logged)
    ensures Covers(fs, gs, was, logged, m)
  {
    forall c ensures CoversAt(fs, gs, logged, m, c) {}
  }

  /** Block b is allocated and put into slot (i, k), which is in memory or in a logged block. */
  lemma Attached(fs: Fs, fs1: Fs, gs: Fs, owner: map<int, Slot>, i: int, k: int, b: int,
                 l0: set<int>, l1: set<int>, l2: set<int>, m: int)
    requires Own(fs, owner) && IsSlot(fs, i, k) && Ref(fs, i, k) == 0 && Alloc(fs, fs1, b)
    requires Shape(fs1) && Attach(fs1, gs, i, k, b) && l1 == l0 + {m + b / BPB, b} && l1 <= l2
    requires NDIRECT < k ==> fs1.inodes[i].addrs[NDIRECT] in l2
    ensures Own(gs, owner[b := Slot(i, k)]) && Grown(fs, gs, i) && Ref(gs, i, k) == b && Covers(fs, gs, l0, l2, m)
  {
    AttachShape(fs1, gs, i, k, b);
    GrowOwn(fs, fs1, gs, owner, i, k, b);
    GrowSees(fs, fs1, gs, owner, i, k, b);
    CoversOne(fs, fs1, l0, l1, m, b);
    if k <= NDIRECT {
      CoversSame(fs1, gs, l1, l2, m);
    } else {
      CoversOne(fs1, gs, l1, l2, m, fs1.inodes[i].addrs[NDIRECT]);
    }
    CoversTrans(fs, fs1, gs, l0, l1, l2, m);
  }

  /** The last call finds fewer than n blocks of its own transaction. */
  ghost predicate LastFits(calls: seq<int>, n: int) {
    calls != [] && |Called(calls[..|calls| - 1])| < n
  }

  /** What transactions have changed so far is in one of them. */
  ghost predicate AllCovered(fs: Fs, d: seq<Inode>, gs: Fs, e: seq<Inode>, txns: seq<seq<int>>, m: int, start: int) {
    Covers(fs, gs, {}, AllCalled(txns), m) && CoversInodes(d, e, AllCalled(txns), start)
  }

  lemma AllCoveredNone(fs: Fs, d: seq<Inode>, m: int, start: int)
    ensures AllCovered(fs, d, fs, d, [], m, start)
  {
    CoversSame(fs, fs, {}, {}, m);
  }

  lemma AllCoveredNext(fs: Fs, d: seq<Inode>, gs: Fs, e: seq<Inode>, hs: Fs, f: seq<Inode>,
                       txns: seq<seq<int>>, calls: seq<int>, m: int, start: int)
    requires AllCovered(fs, d, gs, e, txns, m, start)
    requires Covers(gs, hs, {}, Called(calls), m) && CoversInodes(e, f, Called(calls), start)
    ensures AllCovered(fs, d, hs, f, txns + [calls], m, start)
  {
    AllCalledNext(txns, calls);
    var all := AllCalled(txns + [calls]);
    forall b ensures CoversAt(fs, hs, all, m, b) {
      assert CoversAt(fs, gs, AllCalled(txns), m, b) && CoversAt(gs, hs, Called(calls), m, b);
    }
    forall i | 0 <= i < |d| && f[i] != d[i] ensures start + i / IPB in all {
      assert e[i] != d[i] || f[i] != e[i];
    }
  }

  lemma InodeCovers(d: seq<Inode>, e: seq<Inode>, i: int, logged: set<int>, start: int)
    requires 0 <= i < |d| == |e| && e == d[i := e[i]] && start + i / IPB in logged
    ensures CoversInodes(d, e, logged, start)
  {}

  lemma LastCall(calls: seq<int>, b: int, n: int)
    requires |Called(calls)| < n
    ensures LastFits(calls + [b], n)
  {
    assert (calls + [b])[..|calls|] == calls;
  }

  lemma EntryAttached(fs: Fs, fs1: Fs, gs: Fs, owner: map<int, Slot>, now: map<int, Slot>, i: int, k: int, b: int,
                      ind: int, l0: set<int>, l2: set<int>, m: int)
    requires Own(fs, owner) && IsSlot(fs, i, k) && NDIRECT < k && Ref(fs, i, k) == 0 && Alloc(fs, fs1, b)
    requires 0 < ind == fs.inodes[i].addrs[NDIRECT] < |fs1.disk| && BlockOk(fs1.disk[ind]) && 0 <= b < WORDS
    requires gs == fs1.(disk := fs1.disk[ind := SetWord(fs1.disk[ind], k - NDIRECT - 1, b)])
    requires l2 == l0 + {m + b / BPB, b} + {ind} && now == owner[b := Slot(i, k)]
    ensures Own(gs, now) && Grown(fs, gs, i) && Ref(gs, i, k) == b && Covers(fs, gs, l0, l2, m)
  {
    AllocShape(fs, fs1, b);
    Attached(fs, fs1, gs, owner, i, k, b, l0, l0 + {m + b / BPB, b}, l2, m);
  }

  /** Every inode that differs on disk has had its block logged. */
  ghost predicate CoversInodes(d: seq<Inode>, e: seq<Inode>, logged: set<int>, start: int) {
    |e| == |d| && forall i {:trigger e[i]} :: 0 <= i < |d| && e[i] != d[i] ==> start + i / IPB in logged
  }

  /** The blocks m .. m + (len - 1) / BPB hold the bitmap of a disk of len blocks. */
  predicate AreMarks(marks: set<int>, m: int, len: int) {
    forall x :: x in marks ==> m <= x <= m + (len - 1) / BPB
  }

  /** What c rounds logged beyond was; the indirect block was i0 at first and is ind now. */
  ghost predicate Budgeted(was: set<int>, logged: set<int>, c: int, off: int, data: set<int>, marks: set<int>,
                           i0: set<int>, ind: set<int>, m: int, len: int) {
    logged <= was + data + marks + ind && Budget(c, off, data, marks, ind != i0) && AreMarks(marks, m, len)
  }

  lemma BudgetStep(was: set<int>, logged: set<int>, c: int, off: int, data: set<int>, marks: set<int>,
                   i0: set<int>, i1: set<int>, m: int, len: int, now: set<int>, addr: int, more: set<int>, i2: set<int>)
    requires 0 <= c && Budgeted(was, logged, c, off, data, marks, i0, i1, m, len)
    requires now <= logged + more + {addr} + i2 && |more| <= (if i2 != i1 then 2 else 1) && AreMarks(more, m, len)
    requires i1 != {} ==> i2 == i1
    requires i0 != {} ==> i1 == i0
    requires c == 0 && off % BSIZE != 0 ==> more == {} && i2 == i1
    ensures Budgeted(was, now, c + 1, off, data + {addr}, marks + more, i0, i2, m, len)
  {
    assert |data + {addr}| <= |data| + 1 && |marks + more| <= |marks| + |more|;
  }

  /** Two blocks are mapped, the indirect block ind first. */
  lemma MapsTwice(l0: set<int>, l1: set<int>, l2: set<int>, m1: set<int>, m2: set<int>, ind: int, addr: int,
                  i0: set<int>)
    requires l1 <= l0 + m1 + {ind} && (if addr == 0 then l2 == l1 else l2 <= l1 + m2 + {addr, ind})
    requires |m1| <= 1 && |m2| <= 1 && (i0 != {} ==> m1 == {} && i0 == {ind})
    ensures l2 <= l0 + (m1 + m2) + {addr} + {ind} && |m1 + m2| <= (if i0 != {ind} then 2 else 1)
  {
    assert |m1 + m2| <= |m1| + |m2|;
  }

  lemma KeepsIndirect(fs: Fs, gs: Fs, hs: Fs, i: int)
    requires Keeps(fs, gs) && Keeps(gs, hs) && IsInode(fs, i)
    ensures Indirect(gs.inodes[i]) != {} ==> Indirect(hs.inodes[i]) == Indirect(gs.inodes[i])
    ensures Indirect(fs.inodes[i]) != {} ==> Indirect(gs.inodes[i]) == Indirect(fs.inodes[i])
  {
    assert Ref(hs, i, NDIRECT) == hs.inodes[i].addrs[NDIRECT];
    assert Ref(gs, i, NDIRECT) == gs.inodes[i].addrs[NDIRECT];
    assert Ref(fs, i, NDIRECT) == fs.inodes[i].addrs[NDIRECT];
  }

  lemma MappedKeeps(fs: Fs, gs: Fs, i: int, n: int)
    requires Keeps(fs, gs) && IsInode(fs, i) && MappedTo(fs, i, n)
    ensures MappedTo(gs, i, n)
  {
    forall bn | 0 <= bn < MAXFILE && bn * BSIZE < n ensures Ref(gs, i, FileSlot(bn)) != 0 {
      assert Ref(fs, i, FileSlot(bn)) != 0;
    }
  }

  /** The bytes d are written from off on, with no hole left before their end. */
  ghost predicate Progress(fs: Fs, gs: Fs, i: int, off: int, d: seq<int>) {
    && Wrote(fs, gs, i, off, d) && SameSizes(fs, gs) && Keeps(fs, gs)
    && IsInode(fs, i) && MappedTo(gs, i, off + |d|)
  }

  lemma ProgressNone(fs: Fs, i: int, off: int, d: seq<int>)
    requires Shape(fs) && IsInode(fs, i) && MappedTo(fs, i, off) && d == []
    ensures Progress(fs, fs, i, off, d)
  {}

  lemma ProgressStop(fs: Fs, gs: Fs, hs: Fs, i: int, off: int, d: seq<int>)
    requires Progress(fs, gs, i, off, d) && Wrote(gs, hs, i, off + |d|, []) && SameSizes(gs, hs) && Keeps(gs, hs)
    ensures Progress(fs, hs, i, off, d)
  {
    WroteTrans(fs, gs, hs, i, off, d, []);
    assert d + [] == d;
    KeepsTrans(fs, gs, hs);
    MappedKeeps(gs, hs, i, off + |d|);
  }

  lemma ProgressStep(fs: Fs, gs: Fs, hs: Fs, i: int, off: int, src: seq<int>, tot: int, m: int)
    requires 0 <= off && 0 <= tot && 0 < m && tot + m <= |src| && off + tot + m <= MAXFILE * BSIZE
    requires (off + tot) % BSIZE + m <= BSIZE
    requires Progress(fs, gs, i, off, src[..tot]) && Wrote(gs, hs, i, off + tot, src[tot..tot + m])
    requires SameSizes(gs, hs) && Keeps(gs, hs) && Ref(hs, i, FileSlot((off + tot) / BSIZE)) != 0
    ensures Progress(fs, hs, i, off, src[..tot + m])
  {
    WroteTrans(fs, gs, hs, i, off, src[..tot], src[tot..tot + m]);
    assert src[..tot + m] == src[..tot] + src[tot..tot + m];
    KeepsTrans(fs, gs, hs);
    MappedKeeps(gs, hs, i, off + tot);
    forall bn | 0 <= bn < MAXFILE && bn * BSIZE < off + tot + m ensures Ref(hs, i, FileSlot(bn)) != 0 {
      if bn * BSIZE >= off + tot {
        assert bn == (off + tot) / BSIZE;
      }
    }
  }

  ghost predicate Writing(fs: Fs, gs: Fs, owner: map<int, Slot>, i: int, off: int, d: seq<int>) {
    Own(gs, owner) && Progress(fs, gs, i, off, d) && gs.inodes == fs.inodes[i := gs.inodes[i]]
  }

  /** The first k bytes of src are written. */
  ghost predicate WritingTo(fs: Fs, gs: Fs, owner: map<int, Slot>, i: int, off: int, src: seq<int>, k: int) {
    0 <= k <= |src| && Writing(fs, gs, owner, i, off, src[..k])
  }

  lemma WritingStep(fs: Fs, gs: Fs, hs: Fs, was: map<int, Slot>, owner: map<int, Slot>, i: int, off: int, src: seq<int>,
                    tot: int, m: int, ok: bool)
    requires 0 <= off && 0 <= tot && 0 < m && tot + m <= |src| && off + tot + m <= MAXFILE * BSIZE
    requires (off + tot) % BSIZE + m <= BSIZE
    requires WritingTo(fs, gs, was, i, off, src, tot) && Own(hs, owner) && |hs.inodes| == |gs.inodes|
    requires Wrote(gs, hs, i, off + tot, if ok then src[tot..tot + m] else [])
    requires hs.inodes == gs.inodes[i := hs.inodes[i]]
    requires SameSizes(gs, hs) && Keeps(gs, hs) && (ok ==> Ref(hs, i, FileSlot((off + tot) / BSIZE)) != 0)
    ensures WritingTo(fs, hs, owner, i, off, src, if ok then tot + m else tot)
    ensures Indirect(gs.inodes[i]) != {} ==> Indirect(hs.inodes[i]) == Indirect(gs.inodes[i])
    ensures Indirect(fs.inodes[i]) != {} ==> Indirect(gs.inodes[i]) == Indirect(fs.inodes[i])
  {
    if ok {
      ProgressStep(fs, gs, hs, i, off, src, tot, m);
    } else {
      ProgressStop(fs, gs, hs, i, off, src[..tot]);
    }
    KeepsIndirect(fs, gs, hs, i);
  }

  /** File i is its old bytes with d over them at off; all other files are as before. */
  ghost predicate Overwritten(fs: Fs, gs: Fs, i: int, off: int, d: seq<int>) {
    && Shape(fs) && Shape(gs) && |gs.inodes| == |fs.inodes| && IsInode(fs, i) && 0 <= off <= fs.inodes[i].size
    && Contents(gs, i) == Overwrite(Contents(fs, i), off, d)
    && forall j :: IsInode(fs, j) && j != i ==> Contents(gs, j) == Contents(fs, j)
  }

  /** writei is done: the size is set and the inode logged. */
  lemma WriteEnds(fs: Fs, gs: Fs, hs: Fs, owner: map<int, Slot>, i: int, off: int, src: seq<int>, tot: int,
                  l0: set<int>, l1: set<int>, l2: set<int>, m: int)
    requires WritingTo(fs, gs, owner, i, off, src, tot) && NoHoles(fs)
    requires 0 <= off <= fs.inodes[i].size && off + tot <= MAXFILE * BSIZE
    requires if off + tot > gs.inodes[i].size then Resize(gs, hs, i, off + tot) else hs == gs
    requires Covers(fs, gs, l0, l1, m) && l1 <= l2
    ensures Own(hs, owner) && NoHoles(hs) && Overwritten(fs, hs, i, off, src[..tot])
    ensures hs.inodes == fs.inodes[i := hs.inodes[i]] && Covers(fs, hs, l0, l2, m)
  {
    FinishWrite(fs, gs, hs, owner, i, off, src[..tot]);
    CoversSame(gs, hs, l1, l2, m);
    CoversTrans(fs, gs, hs, l0, l1, l2, m);
  }

  lemma FinishWrite(fs: Fs, gs: Fs, hs: Fs, owner: map<int, Slot>, i: int, off: int, d: seq<int>)
    requires Writing(fs, gs, owner, i, off, d) && NoHoles(fs)
    requires 0 <= off <= fs.inodes[i].size && off + |d| <= MAXFILE * BSIZE
    requires if off + |d| > gs.inodes[i].size then Resize(gs, hs, i, off + |d|) else hs == gs
    ensures Own(hs, owner) && NoHoles(hs) && Overwritten(fs, hs, i, off, d) && hs.inodes == fs.inodes[i := hs.inodes[i]]
  {
    if hs != gs {
      ResizeOwn(gs, hs, owner, i, off + |d|);
      ResizeSees(gs, hs, i, off + |d|);
    }
    forall j | IsInode(fs, j) ensures MappedTo(hs, j, hs.inodes[j].size) {
      MappedKeeps(fs, gs, j, fs.inodes[j].size);
      FinishMapped(gs, hs, i, off + |d|, j);
    }
    FinishWrote(fs, gs, hs, i, off, d);
  }

  lemma FinishMapped(gs: Fs, hs: Fs, i: int, n: int, j: int)
    requires Shape(gs) && Shape(hs) && IsInode(gs, i) && IsInode(gs, j) && MappedTo(gs, j, gs.inodes[j].size)
    requires MappedTo(gs, i, n)
    requires if n > gs.inodes[i].size then Resize(gs, hs, i, n) else hs == gs
    ensures MappedTo(hs, j, hs.inodes[j].size)
  {
    if hs != gs {
      forall bn | 0 <= bn < MAXFILE && bn * BSIZE < hs.inodes[j].size ensures Ref(hs, j, FileSlot(bn)) != 0 {
        ResizeRef(gs, hs, i, n, j, FileSlot(bn));
      }
    }
  }

  lemma FinishWrote(fs: Fs, gs: Fs, hs: Fs, i: int, off: int, d: seq<int>)
    requires Wrote(fs, gs, i, off, d) && SameSizes(fs, gs) && IsInode(fs, i) && 0 <= off <= fs.inodes[i].size
    requires Shape(hs)
    requires if off + |d| > gs.inodes[i].size then Resize(gs, hs, i, off + |d|) else hs == gs
    ensures Overwritten(fs, hs, i, off, d)
  {
    if hs != gs {
      ResizeSees(gs, hs, i, off + |d|);
    }
    WroteTrans0(fs, gs, hs, i, off, d);
    forall j | IsInode(fs, j)
      ensures Contents(hs, j) == if j == i then Overwrite(Contents(fs, i), off, d) else Contents(fs, j)
    {
      WroteContents(fs, hs, i, off, d, j);
    }
  }

  lemma WroteTrans0(fs: Fs, gs: Fs, hs: Fs, i: int, off: int, d: seq<int>)
    requires Wrote(fs, gs, i, off, d) && (hs == gs || Wrote(gs, hs, i, 0, []))
    ensures Wrote(fs, hs, i, off, d)
  {}

  /** What is stored at off, up to n bytes; a wrapping off + n reads nothing. */
  function Stored(s: seq<int>, off: int, n: int): (d: seq<int>)
    requires 0 <= off && 0 <= n
  {
    if off > |s| || off + n >= WORDS then [] else s[off..if off + n > |s| then |s| else off + n]
  }

  /** The test on off + n modulo WORDS that readi makes. */
  lemma StoredSlice(s: seq<int>, off: int, n: int)
    requires 0 <= off < WORDS && |s| < WORDS && 0 <= n < WORDS
    ensures off > |s| || (off + n) % WORDS < off ==> Stored(s, off, n) == []
    ensures !(off > |s| || (off + n) % WORDS < off) ==>
      var end := if (off + n) % WORDS > |s| then |s| else off + n;
      off <= end <= |s| && Stored(s, off, n) == s[off..end]
  {}

  /** readi after writei: the bytes written are read back. */
  lemma ReadBack(s: seq<int>, off: int, d: seq<int>)
    requires 0 <= off <= |s| && off + |d| <= MAXFILE * BSIZE
    ensures Stored(Overwrite(s, off, d), off, |d|) == d
  {}

  lemma SliceAppend(s: seq<int>, a: nat, b: nat, c: nat)
    requires a <= b <= c <= |s|
    ensures s[a..b] + s[b..c] == s[a..c]
  {}

  lemma ReadSlice(fs: Fs, i: int, off: int, m: int)
    requires Shape(fs) && IsInode(fs, i) && 0 <= off && 0 < m && off + m <= fs.inodes[i].size
    requires off % BSIZE + m <= BSIZE
    requires 0 < Ref(fs, i, FileSlot(off / BSIZE)) < |fs.disk|
    ensures var o := off % BSIZE;
      fs.disk[Ref(fs, i, FileSlot(off / BSIZE))].bytes[o..o + m] == Contents(fs, i)[off..off + m]
  {
    var o := off % BSIZE;
    var s, d := fs.disk[Ref(fs, i, FileSlot(off / BSIZE))].bytes[o..o + m], Contents(fs, i)[off..off + m];
    forall x | 0 <= x < m ensures s[x] == d[x] {
      assert (off + x) / BSIZE == off / BSIZE && (off + x) % BSIZE == off % BSIZE + x;
      assert d[x] == ByteAt(fs, i, off + x);
    }
  }

  predicate Emptied(ip: Inode) {
    ip.size == 0 && |ip.addrs| == NDIRECT + 1 && forall k :: 0 <= k <= NDIRECT ==> ip.addrs[k] == 0
  }

  /** owner is was without some blocks of inode i. */
  ghost predicate Fewer(was: map<int, Slot>, owner: map<int, Slot>, i: int) {
    && (forall b :: b in owner ==> b in was && owner[b] == was[b])
    && (forall b :: b in was && b !in owner ==> was[b].inum == i)
  }

  /** The blocks of the other inodes. */
  function Others(was: map<int, Slot>, i: int): (owner: map<int, Slot>)
    ensures forall b {:trigger b in owner} :: b in owner <==> b in was && was[b].inum != i
    ensures forall b {:trigger owner[b]} :: b in owner ==> owner[b] == was[b]
  {
    map b | b in was && was[b].inum != i :: was[b]
  }

  lemma EmptyOwn(fs: Fs)
    requires Shape(fs) && (forall b :: 0 <= b < |fs.used| ==> fs.used[b] == (b < fs.meta))
    requires forall i :: IsInode(fs, i) ==> Emptied(fs.inodes[i])
    ensures Own(fs, map[]) && NoHoles(fs)
  {
    forall i, k | IsSlot(fs, i, k) ensures Ref(fs, i, k) == 0 {
      assert Emptied(fs.inodes[i]);
    }
    forall i | IsInode(fs, i) ensures MappedTo(fs, i, fs.inodes[i].size) {
      assert Emptied(fs.inodes[i]);
    }
  }

  lemma FewerOthers(was: map<int, Slot>, owner: map<int, Slot>, i: int)
    requires Fewer(was, owner, i) && forall b :: b in owner ==> was[b].inum != i
    ensures owner == Others(was, i)
  {
    var others := Others(was, i);
    forall b: int ensures b in owner <==> b in others {}
    assert owner.Keys == others.Keys;
    assert forall b :: b in owner ==> owner[b] == others[b];
  }

  lemma FinishTrunc(fs: Fs, gs: Fs, hs: Fs, was: map<int, Slot>, owner: map<int, Slot>, i: int)
    requires Shape(fs) && NoHoles(fs) && Own(gs, owner) && Fewer(was, owner, i) && IsInode(fs, i)
    requires |gs.inodes| == |fs.inodes|
    requires gs.disk == fs.disk && gs.inodes == fs.inodes[i := gs.inodes[i]] && Resize(gs, hs, i, 0)
    requires Emptied(hs.inodes[i])
    ensures Own(hs, owner) && NoHoles(hs)
    ensures owner == Others(was, i)
    ensures forall j :: IsInode(fs, j) && j != i ==> Contents(hs, j) == Contents(fs, j)
  {
    ResizeOwn(gs, hs, owner, i, 0);
    forall b | b in owner ensures was[b].inum != i {
      assert OwnedOk(hs, owner, b);
    }
    FewerOthers(was, owner, i);
    forall j, x | IsInode(fs, j) && j != i && 0 <= x < MAXFILE * BSIZE ensures ByteAt(hs, j, x) == ByteAt(fs, j, x) {
      assert hs.inodes[j] == fs.inodes[j];
    }
    forall j | IsInode(fs, j) && j != i
      ensures Contents(hs, j) == Contents(fs, j) && MappedTo(hs, j, hs.inodes[j].size)
    {
      assert MappedTo(fs, j, fs.inodes[j].size);
      SameBytes(fs, hs, j);
    }
  }

  lemma FinishUsed(fs: Fs, hs: Fs, was: map<int, Slot>, owner: map<int, Slot>, i: int)
    requires Own(fs, was) && Own(hs, owner) && owner == Others(was, i) && hs.meta == fs.meta && |hs.used| == |fs.used|
    ensures forall b :: 0 <= b < |fs.used| ==> (hs.used[b] <==> fs.used[b] && !(b in was && was[b].inum == i))
  {
    forall b | 0 <= b < |fs.used| ensures hs.used[b] <==> fs.used[b] && !(b in was && was[b].inum == i) {
      assert UsedOk(fs, was, b) && UsedOk(hs, owner, b);
      assert b in was ==> OwnedOk(fs, was, b);
    }
  }

  lemma SameBytes(fs: Fs, hs: Fs, j: int)
    requires Shape(fs) && Shape(hs) && IsInode(fs, j) && IsInode(hs, j) && hs.inodes[j] == fs.inodes[j]
    requires hs.disk == fs.disk
    ensures Contents(hs, j) == Contents(fs, j)
    ensures forall k :: 0 <= k < SLOTS ==> Ref(hs, j, k) == Ref(fs, j, k)
  {
    var s, t := Contents(hs, j), Contents(fs, j);
    forall x | 0 <= x < |s| ensures s[x] == t[x] {
      assert s[x] == ByteAt(hs, j, x) && t[x] == ByteAt(fs, j, x);
    }
  }

  lemma OneMark(marks: set<int>, m: int, len: int)
    requires 0 < len <= BPB && forall x :: x in marks ==> m <= x <= m + (len - 1) / BPB
    ensures |marks| <= 1
  {
    forall x: int | x in marks ensures x in {m} {}
    SubsetSize(marks, {m});
  }

  /** The most blocks one writei logs: data, bitmap, indirect and inode blocks. */
  function LogSpan(off: int, n: int, oneMark: bool): (k: int)
    requires 0 <= off && 0 <= n
    ensures n <= CHUNK ==> k <= MAXOPBLOCKS && (oneMark ==> k <= 7)
  {
    Span(off, n) + (if oneMark then 1 else MarkSpan(off, n)) + 2
  }

  lemma LogCount(was: set<int>, logged: set<int>, data: set<int>, marks: set<int>, ind: set<int>, off: int, n: int,
                 m: int, len: int)
    requires 0 <= off && 0 <= n && 0 < len && |ind| <= 1 && logged <= was + data + marks + ind
    requires |data| <= Span(off, n) && |marks| <= MarkSpan(off, n) && AreMarks(marks, m, len)
    ensures |logged| <= |was| + LogSpan(off, n, len <= BPB) - 1
  {
    SubsetSize(logged, was + data + marks + ind);
    assert |was + data + marks + ind| <= |was| + |data| + |marks| + |ind|;
    if len <= BPB {
      OneMark(marks, m, len);
    }
  }

  lemma OverwriteTwice(s: seq<int>, off: int, d: seq<int>, e: seq<int>)
    requires 0 <= off <= |s|
    ensures off + |d| <= |Overwrite(s, off, d)|
    ensures Overwrite(Overwrite(s, off, d), off + |d|, e) == Overwrite(s, off, d + e)
  {
    var u := Overwrite(s, off, d);
    assert u[..off + |d|] == s[..off] + d;
    if off + |d| + |e| < |u| {
      assert u[off + |d| + |e|..] == s[off + |d + e|..];
    }
  }

  /** filewrite has written d at off; beyond the end of the file it writes nothing. */
  ghost predicate Filed(fs: Fs, gs: Fs, i: int, off: int, d: seq<int>)
    requires IsInode(fs, i)
  {
    if off <= fs.inodes[i].size then Overwritten(fs, gs, i, off, d) else gs == fs && d == []
  }

  lemma FiledNone(fs: Fs, i: int, off: int, d: seq<int>)
    requires Shape(fs) && IsInode(fs, i) && 0 <= off && d == []
    ensures Filed(fs, fs, i, off, d)
  {
    if off <= fs.inodes[i].size {
      assert Overwrite(Contents(fs, i), off, d) == Contents(fs, i);
    }
  }

  lemma FiledStep(fs: Fs, gs: Fs, hs: Fs, i: int, off0: int, off: int, d: seq<int>, e: seq<int>, f: seq<int>, r: int)
    requires IsInode(fs, i) && 0 <= off0 && off == off0 + |d| && Filed(fs, gs, i, off0, d) && |gs.inodes| == |fs.inodes|
    requires off > gs.inodes[i].size ==> r == -1
    requires f == d + e && (r == -1 ==> e == [])
    requires if r == -1 then hs == gs else Overwritten(gs, hs, i, off, e)
    ensures Filed(fs, hs, i, off0, f)
  {
    if r == -1 {
      assert d + e == d;
    } else {
      assert off0 <= fs.inodes[i].size;
      OverwrittenTrans(fs, gs, hs, i, off0, d, e);
    }
  }

  /** The first k bytes of src are filed. */
  ghost predicate Filing(fs: Fs, gs: Fs, i: int, off: int, src: seq<int>, k: int) {
    IsInode(fs, i) && 0 <= k <= |src| && Filed(fs, gs, i, off, src[..k])
  }

  lemma FiledEnd(fs: Fs, gs: Fs, i: int, off: int, d: seq<int>)
    requires IsInode(fs, i) && Filed(fs, gs, i, off, d) && |gs.inodes| == |fs.inodes|
    ensures off <= fs.inodes[i].size ==> off + |d| <= gs.inodes[i].size
  {}

  /** No copy from user space fails. */
  predicate NoneFail(bads: seq<int>) {
    forall t :: 0 <= t < |bads| ==> bads[t] < 0
  }

  lemma OrderlyLast(calls: seq<int>)
    requires calls != [] && |Called(calls[..|calls| - 1])| < MAXOPBLOCKS
    ensures Orderly(calls)
  {
    var but := calls[..|calls| - 1];
    OrderlyIf(but, calls[|calls| - 1]);
    assert but + [calls[|calls| - 1]] == calls;
  }

  lemma SliceJoin(s: seq<int>, a: nat, n: nat, r: int, d: seq<int>, next: int)
    requires a + n <= |s| && -1 <= r <= n && d == (if r == -1 then [] else s[a..a + n][..r])
    requires next == if r > 0 then a + r else a
    ensures s[..next] == s[..a] + d
  {}

  lemma OverwrittenTrans(fs: Fs, gs: Fs, hs: Fs, i: int, off: int, d: seq<int>, e: seq<int>)
    requires Overwritten(fs, gs, i, off, d) && Overwritten(gs, hs, i, off + |d|, e)
    ensures Overwritten(fs, hs, i, off, d + e)
  {
    OverwriteTwice(Contents(fs, i), off, d, e);
    forall j | IsInode(fs, j) && j != i ensures Contents(hs, j) == Contents(fs, j) {
      assert Contents(gs, j) == Contents(fs, j);
    }
  }

  /** Before round c of writei's loop, tot bytes are done. */
  /** With the first tot bytes from off on done, the next are in the c-th block. */
  predicate Round(off: int, tot: int, c: int) {
    c == (off + tot) / BSIZE - off / BSIZE && (tot > 0 ==> (off + tot) % BSIZE == 0)
  }

  /** How much of left bytes from off on is in one block. */
  function Piece(off: int, left: int): (m: int)
    requires 0 <= off && 0 < left
    ensures 0 < m <= left && off % BSIZE + m <= BSIZE
  {
    if left < BSIZE - off % BSIZE then left else BSIZE - off % BSIZE
  }

  lemma RoundStep(off: int, n: int, tot: int, m: int, c: int)
    requires 0 <= off && 0 <= tot < n && Round(off, tot, c)
    requires m == Piece(off + tot, n - tot)
    ensures 0 <= c && c + 1 <= Span(off, n) && (tot + m < n ==> Round(off, tot + m, c + 1))
    ensures (c == 0 ==> tot == 0) && Span(off, tot + m) == c + 1
  {}

  /** A loop over blocks that has done c of them, tot bytes of n; the bad-th one fails. */
  predicate Copying(off: int, n: int, tot: int, c: int, bad: int, ok: bool) {
    && 0 <= off && 0 <= tot <= n && 0 <= c <= Span(off, n)
    && (ok ==> c == Span(off, tot) && !(0 <= bad < c) && (tot < n ==> Round(off, tot, c)))
    && (!ok ==> Span(off, tot) == c - 1 && !(0 <= bad < c - 1) && tot < n && Round(off, tot, c - 1))
  }

  /** Why tot of n bytes from off on were written: all, the disk is full, or the copy for
      the bad-th block failed; and nothing of that block was written. */
  predicate Stops(off: int, n: int, tot: int, bad: int, full: bool) {
    && (tot < n ==> full || (0 <= bad && Round(off, tot, bad)))
    && (0 <= bad && 0 <= off && 0 <= tot ==> Span(off, tot) <= bad)
  }

  lemma CopyingStops(off: int, n: int, tot: int, c: int, bad: int, ok: bool, full: bool)
    requires Copying(off, n, tot, c, bad, ok) && (ok ==> tot == n) && (!ok ==> full || c - 1 == bad)
    ensures Stops(off, n, tot, bad, full)
  {}

  /** readi's loop: what it has is the file from off up to at. */
  ghost predicate Reading(file: seq<int>, off: int, end: int, at: int, c: int, bad: int, dst: seq<int>) {
    && 0 <= off <= at <= end <= |file| && dst == file[off..at]
    && Copying(off, end - off, at - off, c, bad, true)
  }

  lemma ReadingStep(file: seq<int>, off: int, end: int, at: int, c: int, bad: int, dst: seq<int>, m: int, d: seq<int>)
    requires Reading(file, off, end, at, c, bad, dst) && at < end && m == Piece(at, end - at) && d == file[at..at + m]
    ensures c == bad ==> 0 <= bad < Span(off, end - off)
    ensures c != bad ==> Reading(file, off, end, at + m, c + 1, bad, dst + d)
  {
    CopyingStep(off, end - off, at - off, m, c, bad, c != bad);
    SliceAppend(file, off, at, at + m);
  }

  lemma CopyingStep(off: int, n: int, tot: int, m: int, c: int, bad: int, ok: bool)
    requires Copying(off, n, tot, c, bad, true) && tot < n && m == Piece(off + tot, n - tot) && (ok ==> c != bad)
    ensures Copying(off, n, if ok then tot + m else tot, c + 1, bad, ok)
    ensures c + 1 <= Span(off, n)
  {
    RoundStep(off, n, tot, m, c);
  }

  class File {
    const inum: int
    const writable: bool
    var off: int

    constructor (i: int, w: bool)
      ensures inum == i && writable == w && off == 0
    {
      inum, writable, off := i, w, 0;
    }
  }

  class FileSys {
    const meta: int
    const bmapstart: int
    const inodestart: int
    const bits: array<bv8>
    const disk: array<Block>
    const inode: array<Inode>    // in memory
    const dinode: array<Inode>   // on disk
    var logged: set<int>         // the blocks of the current transaction
    ghost var calls: seq<int>    // its log_write calls, in order
    ghost var owner: map<int, Slot>

    ghost predicate Layout() {
      && 0 < meta <= disk.Length < WORDS && disk.Length <= 8 * bits.Length
      && inode != dinode && inode.Length == dinode.Length
      && (bits as object) != disk && (bits as object) != inode && (bits as object) != dinode
    }

    ghost function Snapshot(): (fs: Fs)
      reads bits, disk, inode
      requires Layout()
    {
      Fs(meta, Marks(bits[..], disk.Length), disk[..], inode[..])
    }

    /** An empty file system: the blocks below m are marked, every inode is empty. */
    constructor (size: int, m: int, inodes: int, bm: int, im: int)
      requires 0 < m <= size < WORDS && 0 <= inodes
      ensures Valid() && Layout() && owner == map[] && calls == []
      ensures disk.Length == size && meta == m && inode.Length == inodes && bmapstart == bm && inodestart == im
      ensures fresh(bits) && fresh(disk) && fresh(inode) && fresh(dinode)
      ensures forall i :: 0 <= i < inodes ==> Emptied(inode[i])
    {
      var empty := Inode(0, Zeros(NDIRECT + 1));
      meta, bmapstart, inodestart, logged, calls, owner := m, bm, im, {}, [], map[];
      bits := new bv8[size / 8 + 1](_ => 0);
      disk := new Block[size](_ => ZeroBlock());
      inode := new Inode[inodes](_ => empty);
      dinode := new Inode[inodes](_ => empty);
      new;
      MarkMeta();
      EmptyOwn(Snapshot());
    }

    method MarkMeta()
      requires Layout() && forall b :: 0 <= b < disk.Length ==> !Snapshot().used[b]
      modifies bits
      ensures forall b :: 0 <= b < disk.Length ==> Snapshot().used[b] == (b < meta)
    {
      for b := 0 to meta
        invariant forall c :: 0 <= c < disk.Length ==> Snapshot().used[c] == (c < b)
      {
        Mark(b);
      }
    }

    ghost predicate Noted()
      reads this
    {
      logged == Called(calls)
    }

    method LogWrite(b: int)
      requires Noted()
      modifies this`logged, this`calls
      ensures Noted() && logged == old(logged) + {b} && calls == old(calls) + [b]
    {
      CalledNext(calls, b);
      logged := logged + {b};
      calls := calls + [b];
    }

    method Bzero(b: int)
      requires Layout() && Noted() && 0 <= b < disk.Length
      modifies disk, this`logged, this`calls
      ensures Noted()
      ensures disk[..] == old(disk[..])[b := ZeroBlock()] && logged == old(logged) + {b}
    {
      disk[b] := ZeroBlock();
      LogWrite(b);
    }

    // ---- bits of the free map; bit b is bit bi of bitmap block b / BPB

    method Marked(b: int) returns (yes: bool)
      requires Layout() && 0 <= b < disk.Length
      ensures yes == Snapshot().used[b]
    {
      var bi := b % BPB;
      ByteIndex(b);
      yes := bits[b / BPB * BSIZE + bi / 8] & Mask(bi % 8) != 0;
    }

    method Mark(b: int)
      requires Layout() && 0 <= b < disk.Length
      modifies bits
      ensures Snapshot().used == old(Snapshot().used)[b := true]
    {
      var bi := b % BPB;
      ByteIndex(b);
      MarkSet(bits[..], disk.Length, b);
      var x := b / BPB * BSIZE + bi / 8;
      bits[x] := bits[x] | Mask(bi % 8);
    }

    method Unmark(b: int)
      requires Layout() && 0 <= b < disk.Length
      modifies bits
      ensures Snapshot().used == old(Snapshot().used)[b := false]
    {
      var bi := b % BPB;
      ByteIndex(b);
      MarkClear(bits[..], disk.Length, b);
      var x := b / BPB * BSIZE + bi / 8;
      bits[x] := bits[x] & !Mask(bi % 8);
    }

    /** balloc's search: the first free block, or disk.Length. */
    method FindFree() returns (r: int)
      requires Layout()
      ensures 0 <= r <= disk.Length && (r < disk.Length ==> !Snapshot().used[r])
      ensures forall b :: 0 <= b < r ==> Snapshot().used[b]
    {
      var b := 0;
      while b < disk.Length
        invariant 0 <= b
        invariant forall c :: 0 <= c < b && c < disk.Length ==> Snapshot().used[c]
      {
        var bi := 0;
        while bi < BPB && b + bi < disk.Length
          invariant 0 <= bi <= BPB
          invariant forall c :: 0 <= c < b + bi && c < disk.Length ==> Snapshot().used[c]
        {
          var inUse := Marked(b + bi);
          if !inUse {
            return b + bi;
          }
          bi := bi + 1;
        }
        b := b + BPB;
      }
      return disk.Length;
    }

    /** 0 means that no block is free. */
    method Balloc() returns (r: int)
      requires Layout() && Noted() && (forall b :: 0 <= b < meta ==> Snapshot().used[b])
      modifies bits, disk, this`logged, this`calls
      ensures Noted()
      ensures r == 0 ==> Snapshot() == old(Snapshot()) && logged == old(logged)
      ensures r == 0 ==> forall b :: 0 <= b < disk.Length ==> Snapshot().used[b]
      ensures r != 0 ==> Alloc(old(Snapshot()), Snapshot(), r) && logged == old(logged) + {bmapstart + r / BPB, r}
      ensures r != 0 ==> forall b :: 0 <= b < r ==> Snapshot().used[b]
    {
      r := FindFree();
      if r == disk.Length {
        return 0;
      }
      Mark(r);
      LogWrite(bmapstart + r / BPB);
      Bzero(r);
    }

    /** false where the code panics: the block is free already. */
    method Bfree(b: int) returns (ok: bool)
      requires Layout() && Noted() && 0 <= b < disk.Length
      modifies bits, this`logged, this`calls
      ensures Noted()
      ensures ok == old(Snapshot().used[b])
      ensures Snapshot().used == old(Snapshot().used)[b := false]
      ensures ok ==> logged == old(logged) + {bmapstart + b / BPB}
    {
      ok := Marked(b);
      if ok {
        Unmark(b);
        LogWrite(bmapstart + b / BPB);
      }
    }

    // ---- bmap

    /** m is a block of the free map. */
    predicate IsMark(m: int) {
      bmapstart <= m <= bmapstart + (disk.Length - 1) / BPB
    }

    /** The block of a direct slot, or the indirect block (k == NDIRECT),
        allocated if the slot is empty; 0 if that fails. */
    method MapDirect(i: int, k: int) returns (addr: int, ghost marks: set<int>)
      requires Layout() && Noted() && Own(Snapshot(), owner) && 0 <= i < inode.Length && 0 <= k <= NDIRECT
      modifies bits, disk, inode, this`logged, this`calls, this`owner
      ensures Noted()
      ensures Own(Snapshot(), owner) && addr == Ref(Snapshot(), i, k)
      ensures Grown(old(Snapshot()), Snapshot(), i) && inode[..] == old(inode[..])[i := inode[i]]
      ensures addr == 0 ==> Full()
      ensures addr == 0 || old(inode[i].addrs[k]) != 0 ==> Snapshot() == old(Snapshot()) && logged == old(logged)
      ensures addr == 0 || old(inode[i].addrs[k]) != 0 ==> marks == {} && owner == old(owner)
      ensures addr != 0 ==> logged <= old(logged) + marks + {addr}
      ensures |marks| <= 1 && forall m :: m in marks ==> IsMark(m)
      ensures Covers(old(Snapshot()), Snapshot(), old(logged), logged, bmapstart)
    {
      ghost var fs, was := Snapshot(), owner;
      CoversSame(fs, fs, logged, logged, bmapstart);
      marks := {};
      addr := inode[i].addrs[k];
      assert addr == Ref(fs, i, k);
      if addr == 0 {
        MetaUsed(fs, was);
        addr := Balloc();
        if addr == 0 {
          return;
        }
        ghost var fs1 := Snapshot();
        AllocShape(fs, fs1, addr);
        marks := {bmapstart + addr / BPB};
        inode[i] := Inode(inode[i].size, inode[i].addrs[k := addr]);
        owner := owner[addr := Slot(i, k)];
        Attached(fs, fs1, Snapshot(), was, i, k, addr, old(logged), logged, logged, bmapstart);
      }
    }

    /** a[bn] = addr in the indirect block, and its log_write. */
    method PutEntry(ind: int, j: int, addr: int)
      requires Layout() && Noted() && 0 <= ind < disk.Length && 0 <= j < NINDIRECT && 0 <= addr < WORDS
      requires BlockOk(disk[ind])
      modifies disk, this`logged, this`calls
      ensures Noted() && logged == old(logged) + {ind}
      ensures Snapshot() == old(Snapshot()).(disk := old(disk[..])[ind := SetWord(old(disk[ind]), j, addr)])
    {
      disk[ind] := SetWord(disk[ind], j, addr);
      LogWrite(ind);
    }

    /** The entry of the indirect block, which is mapped, for slot k. */
    method MapEntry(i: int, k: int) returns (addr: int, ghost marks: set<int>)
      requires Layout() && Noted() && Own(Snapshot(), owner) && 0 <= i < inode.Length && NDIRECT < k < SLOTS
      requires inode[i].addrs[NDIRECT] != 0
      modifies bits, disk, this`logged, this`calls, this`owner
      ensures Noted()
      ensures Own(Snapshot(), owner) && addr == Ref(Snapshot(), i, k)
      ensures Grown(old(Snapshot()), Snapshot(), i) && inode[..] == old(inode[..])[i := inode[i]]
      ensures addr == 0 ==> Full()
      ensures addr == 0 || old(Ref(Snapshot(), i, k)) != 0 ==> Snapshot() == old(Snapshot()) && logged == old(logged)
      ensures addr == 0 || old(Ref(Snapshot(), i, k)) != 0 ==> marks == {} && owner == old(owner)
      ensures addr != 0 ==> logged <= old(logged) + marks + {addr, inode[i].addrs[NDIRECT]}
      ensures |marks| <= 1 && forall m :: m in marks ==> IsMark(m)
      ensures Covers(old(Snapshot()), Snapshot(), old(logged), logged, bmapstart)
    {
      ghost var fs, was, l0 := Snapshot(), owner, logged;
      CoversSame(fs, fs, l0, l0, bmapstart);
      marks := {};
      var ind := inode[i].addrs[NDIRECT];
      assert ind == Ref(fs, i, NDIRECT) && SlotOk(fs, was, i, NDIRECT) && OwnedOk(fs, was, ind);
      addr := Word(disk[ind], k - NDIRECT - 1);
      if addr == 0 {
        MetaUsed(fs, was);
        assert UsedOk(fs, was, ind);
        ghost var fs1;
        addr, fs1 := AddEntry(ind, k - NDIRECT - 1);
        if addr != 0 {
          marks := {bmapstart + addr / BPB};
          owner := owner[addr := Slot(i, k)];
          EntryAttached(fs, fs1, Snapshot(), was, owner, i, k, addr, ind, l0, logged, bmapstart);
        }
      }
    }

    /** Entry j of the indirect block ind, which is in use, gets a new block; fs1 is the state in between. */
    method AddEntry(ind: int, j: int) returns (addr: int, ghost fs1: Fs)
      requires Layout() && Noted() && (forall b :: 0 <= b < meta ==> Snapshot().used[b])
      requires 0 < ind < disk.Length && Snapshot().used[ind] && BlockOk(disk[ind]) && 0 <= j < NINDIRECT
      modifies bits, disk, this`logged, this`calls
      ensures Noted()
      ensures addr == 0 ==> Full() && Snapshot() == old(Snapshot()) && logged == old(logged)
      ensures addr != 0 ==> Alloc(old(Snapshot()), fs1, addr) && ind < |fs1.disk| && BlockOk(fs1.disk[ind])
      ensures addr != 0 ==> Snapshot() == fs1.(disk := fs1.disk[ind := SetWord(fs1.disk[ind], j, addr)])
      ensures addr != 0 ==> logged == old(logged) + {bmapstart + addr / BPB, addr} + {ind}
    {
      addr := Balloc();
      fs1 := Snapshot();
      if addr != 0 {
        PutEntry(ind, j, addr);
      }
    }

    /** The disk block of block bn of inode i, allocated if need be; 0 if the
        disk is full.  marks are the bitmap blocks that allocation logged. */
    method Bmap(i: int, bn: int) returns (addr: int, ghost marks: set<int>)
      requires Layout() && Noted() && Own(Snapshot(), owner) && 0 <= i < inode.Length && 0 <= bn < MAXFILE
      modifies bits, disk, inode, this`logged, this`calls, this`owner
      ensures Noted()
      ensures Own(Snapshot(), owner) && addr == Ref(Snapshot(), i, FileSlot(bn))
      ensures Grown(old(Snapshot()), Snapshot(), i) && inode[..] == old(inode[..])[i := inode[i]]
      ensures addr == 0 ==> Full()
      ensures old(Ref(Snapshot(), i, FileSlot(bn))) != 0 ==>
        Snapshot() == old(Snapshot()) && logged == old(logged) && marks == {} && owner == old(owner)
      ensures logged <= old(logged) + marks + {addr} + Indirect(inode[i])
      ensures |marks| <= (if Indirect(inode[i]) != old(Indirect(inode[i])) then 2 else 1)
      ensures forall m :: m in marks ==> IsMark(m)
      ensures Covers(old(Snapshot()), Snapshot(), old(logged), logged, bmapstart)
    {
      if bn < NDIRECT {
        addr, marks := MapDirect(i, bn);
      } else {
        addr, marks := MapIndirect(i, bn + 1);
      }
    }

    /** bmap through the indirect block, which is allocated first if need be. */
    method MapIndirect(i: int, k: int) returns (addr: int, ghost marks: set<int>)
      requires Layout() && Noted() && Own(Snapshot(), owner) && 0 <= i < inode.Length && NDIRECT < k < SLOTS
      modifies bits, disk, inode, this`logged, this`calls, this`owner
      ensures Noted()
      ensures Own(Snapshot(), owner) && addr == Ref(Snapshot(), i, k)
      ensures Grown(old(Snapshot()), Snapshot(), i) && inode[..] == old(inode[..])[i := inode[i]]
      ensures addr == 0 ==> Full()
      ensures old(Ref(Snapshot(), i, k)) != 0 ==>
        Snapshot() == old(Snapshot()) && logged == old(logged) && marks == {} && owner == old(owner)
      ensures logged <= old(logged) + marks + {addr} + Indirect(inode[i])
      ensures |marks| <= (if Indirect(inode[i]) != old(Indirect(inode[i])) then 2 else 1)
      ensures forall m :: m in marks ==> IsMark(m)
      ensures Covers(old(Snapshot()), Snapshot(), old(logged), logged, bmapstart)
    {
      ghost var fs, l0, i0 := Snapshot(), logged, Indirect(inode[i]);
      var ind;
      ind, marks := MapDirect(i, NDIRECT);
      if ind == 0 {
        return 0, marks;
      }
      ghost var mid, l1, more := Snapshot(), logged, {};
      addr, more := MapEntry(i, k);
      GrownTrans(fs, mid, Snapshot(), i);
      MapsTwice(l0, l1, logged, marks, more, ind, addr, i0);
      CoversTrans(fs, mid, Snapshot(), l0, l1, logged, bmapstart);
      marks := marks + more;
    }

    // ---- writei

    /** One round of writei's loop: the bytes d go into one block.  The copy
        from user space fails if fails says so. */
    method WriteBlock(i: int, off: int, d: seq<int>, fails: bool)
      returns (ok: bool, ghost addr: int, ghost marks: set<int>)
      requires Layout() && Noted() && Own(Snapshot(), owner) && 0 <= i < inode.Length && Bytes(d)
      requires 0 <= off && 0 < |d| && off % BSIZE + |d| <= BSIZE && off < MAXFILE * BSIZE
      modifies bits, disk, inode, this`logged, this`calls, this`owner
      ensures Noted()
      ensures Own(Snapshot(), owner) && inode[..] == old(inode[..])[i := inode[i]]
      ensures Wrote(old(Snapshot()), Snapshot(), i, off, if ok then d else [])
      ensures SameSizes(old(Snapshot()), Snapshot()) && Keeps(old(Snapshot()), Snapshot())
      ensures ok ==> Ref(Snapshot(), i, FileSlot(off / BSIZE)) != 0
      ensures (fails ==> !ok) && (!ok ==> fails || Full())
      ensures logged <= old(logged) + marks + {addr} + Indirect(inode[i])
      ensures |marks| <= (if Indirect(inode[i]) != old(Indirect(inode[i])) then 2 else 1)
      ensures forall m :: m in marks ==> IsMark(m)
      ensures Covers(old(Snapshot()), Snapshot(), old(logged), logged, bmapstart)
      ensures old(Ref(Snapshot(), i, FileSlot(off / BSIZE))) != 0 ==> marks == {} && inode[i] == old(inode[i])
    {
      ghost var fs := Snapshot();
      var a;
      a, marks := Bmap(i, off / BSIZE);
      addr := a;
      if a == 0 || fails {
        return false, addr, marks;
      }
      ghost var gs, l1 := Snapshot(), logged;
      assert SlotOk(gs, owner, i, FileSlot(off / BSIZE)) && OwnedOk(gs, owner, a);
      disk[a] := Patch(disk[a], off % BSIZE, d);
      LogWrite(a);
      CoversOne(gs, Snapshot(), l1, logged, bmapstart, a);
      CoversTrans(fs, gs, Snapshot(), old(logged), l1, logged, bmapstart);
      WriteBlockSees(fs, gs, Snapshot(), owner, i, off, d);
      return true, addr, marks;
    }

    /** One round of writei's loop, seen from its start: tot bytes are done, next will be. */
    method WriteRound(i: int, src: seq<int>, off0: int, tot: int, m: int, fails: bool, ghost fs: Fs, ghost l0: set<int>)
      returns (ok: bool, next: int, ghost addr: int, ghost more: set<int>)
      requires Layout() && Noted() && 0 <= i < inode.Length && Bytes(src) && 0 <= off0
      requires off0 + |src| <= MAXFILE * BSIZE
      requires 0 <= tot && 0 < m && tot + m <= |src| && (off0 + tot) % BSIZE + m <= BSIZE
      requires WritingTo(fs, Snapshot(), owner, i, off0, src, tot) && Covers(fs, Snapshot(), l0, logged, bmapstart)
      modifies bits, disk, inode, this`logged, this`calls, this`owner
      ensures Noted()
      ensures next == (if ok then tot + m else tot) && WritingTo(fs, Snapshot(), owner, i, off0, src, next)
      ensures (fails ==> !ok) && (!ok ==> fails || Full())
      ensures Covers(fs, Snapshot(), l0, logged, bmapstart)
      ensures logged <= old(logged) + more + {addr} + Indirect(inode[i])
      ensures |more| <= (if Indirect(inode[i]) != old(Indirect(inode[i])) then 2 else 1)
      ensures AreMarks(more, bmapstart, disk.Length)
      ensures tot == 0 && off0 % BSIZE != 0 ==> more == {} && Indirect(inode[i]) == old(Indirect(inode[i]))
      ensures old(Indirect(inode[i])) != {} ==> Indirect(inode[i]) == old(Indirect(inode[i]))
      ensures Indirect(fs.inodes[i]) != {} ==> old(Indirect(inode[i])) == Indirect(fs.inodes[i])
    {
      ghost var gs, was, l1 := Snapshot(), owner, logged;
      ok, addr, more := WriteBlock(i, off0 + tot, src[tot..tot + m], fails);
      next := if ok then tot + m else tot;
      CoversTrans(fs, gs, Snapshot(), l0, l1, logged, bmapstart);
      WritingStep(fs, gs, Snapshot(), was, owner, i, off0, src, tot, m, ok);
    }

    /** One trip round writei's loop, with what was logged so far. */
    method WriteNext(i: int, src: seq<int>, off0: int, tot: int, c: int, bad: int, ghost fs: Fs, ghost was: set<int>,
                     ghost i0: set<int>, ghost data: set<int>, ghost marks: set<int>)
      returns (ok: bool, next: int, ghost data1: set<int>, ghost marks1: set<int>)
      requires Layout() && Noted() && 0 <= i < inode.Length && Bytes(src) && off0 + |src| <= MAXFILE * BSIZE
      requires tot < |src| && WritingTo(fs, Snapshot(), owner, i, off0, src, tot)
      requires Covers(fs, Snapshot(), was, logged, bmapstart) && Copying(off0, |src|, tot, c, bad, true)
      requires Budgeted(was, logged, c, off0, data, marks, i0, Indirect(inode[i]), bmapstart, disk.Length)
      requires i0 == Indirect(fs.inodes[i])
      modifies bits, disk, inode, this`logged, this`calls, this`owner
      ensures Noted() && tot <= next && (ok ==> tot < next) && WritingTo(fs, Snapshot(), owner, i, off0, src, next)
      ensures Covers(fs, Snapshot(), was, logged, bmapstart) && Copying(off0, |src|, next, c + 1, bad, ok)
      ensures Budgeted(was, logged, c + 1, off0, data1, marks1, i0, Indirect(inode[i]), bmapstart, disk.Length)
      ensures !ok ==> Full() || c == bad
    {
      var m := Piece(off0 + tot, |src| - tot);
      ghost var i1, l1, addr, more := Indirect(inode[i]), logged, 0, {};
      RoundStep(off0, |src|, tot, m, c);
      ok, next, addr, more := WriteRound(i, src, off0, tot, m, c == bad, fs, was);
      CopyingStep(off0, |src|, tot, m, c, bad, ok);
      data1, marks1 := data + {addr}, marks + more;
      BudgetStep(was, l1, c, off0, data, marks, i0, i1, bmapstart, disk.Length,
                 logged, addr, more, Indirect(inode[i]));
    }

    /** writei's loop.  The copy for the bad-th block fails. */
    method WriteLoop(i: int, src: seq<int>, off0: int, bad: int) returns (tot: int)
      requires Layout() && Noted() && Own(Snapshot(), owner) && 0 <= i < inode.Length && Bytes(src)
      requires 0 <= off0 && off0 + |src| <= MAXFILE * BSIZE && MappedTo(Snapshot(), i, off0)
      modifies bits, disk, inode, this`logged, this`calls, this`owner
      ensures Noted()
      ensures 0 <= tot <= |src| && WritingTo(old(Snapshot()), Snapshot(), owner, i, off0, src, tot)
      ensures Stops(off0, |src|, tot, bad, Full())
      ensures Covers(old(Snapshot()), Snapshot(), old(logged), logged, bmapstart)
      ensures |logged| <= |old(logged)| + LogSpan(off0, |src|, disk.Length <= BPB) - 1
    {
      ghost var fs, was, i0, data, marks := Snapshot(), logged, Indirect(inode[i]), {}, {};
      var c, ok := 0, true;
      tot := 0;
      ProgressNone(fs, i, off0, src[..0]);
      CoversSame(fs, fs, was, was, bmapstart);
      while ok && tot < |src|
        invariant Noted() && 0 <= tot <= |src| && WritingTo(fs, Snapshot(), owner, i, off0, src, tot)
        invariant !ok ==> Full() || c - 1 == bad
        invariant Covers(fs, Snapshot(), was, logged, bmapstart)
        invariant Copying(off0, |src|, tot, c, bad, ok)
        invariant Budgeted(was, logged, c, off0, data, marks, i0, Indirect(inode[i]), bmapstart, disk.Length)
        decreases ok, |src| - tot
      {
        ok, tot, data, marks := WriteNext(i, src, off0, tot, c, bad, fs, was, i0, data, marks);
        c := c + 1;
      }
      CopyingStops(off0, |src|, tot, c, bad, ok, Full());
      LogCount(was, logged, data, marks, Indirect(inode[i]), off0, |src|, bmapstart, disk.Length);
    }

    /** Between transactions the inodes are on disk and no file has a hole. */
    ghost predicate Valid()
      reads this, bits, disk, inode, dinode
    {
      Layout() && Noted() && Own(Snapshot(), owner) && NoHoles(Snapshot()) && dinode[..] == inode[..]
    }

    method Iupdate(i: int)
      requires Layout() && Noted() && 0 <= i < inode.Length
      modifies dinode, this`logged, this`calls
      ensures Noted()
      ensures dinode[..] == old(dinode[..])[i := inode[i]] && logged == old(logged) + {inodestart + i / IPB}
      ensures calls == old(calls) + [inodestart + i / IPB]
    {
      dinode[i] := inode[i];
      LogWrite(inodestart + i / IPB);
    }

    /** writei: r bytes of src are written, or the call is refused with -1. */
    method Writei(i: int, src: seq<int>, off: int, bad: int) returns (r: int)
      requires Valid() && 0 <= i < inode.Length && Bytes(src) && 0 <= off < WORDS && |src| < WORDS
      modifies bits, disk, inode, dinode, this`logged, this`calls, this`owner
      ensures Valid() && -1 <= r <= |src|
      ensures r == -1 <==> off > old(inode[i].size) || off + |src| > MAXFILE * BSIZE
      ensures r == -1 ==> Snapshot() == old(Snapshot()) && calls == old(calls)
      ensures r >= 0 ==> Overwritten(old(Snapshot()), Snapshot(), i, off, src[..r])
      ensures 0 <= r ==> Stops(off, |src|, r, bad, Full())
      ensures Covers(old(Snapshot()), Snapshot(), old(logged), logged, bmapstart)
      ensures CoversInodes(old(dinode[..]), dinode[..], logged, inodestart)
      ensures |logged| <= |old(logged)| + LogSpan(off, |src|, disk.Length <= BPB)
      ensures r >= 0 ==> LastFits(calls, |old(logged)| + LogSpan(off, |src|, disk.Length <= BPB))
    {
      var n := |src|;
      CoversSame(Snapshot(), Snapshot(), logged, logged, bmapstart);
      if off > inode[i].size || (off + n) % WORDS < off {
        return -1;
      }
      if (off + n) % WORDS > MAXFILE * BSIZE {
        return -1;
      }
      r := WriteBytes(i, src, off, bad);
    }

    /** writei after its tests: the loop, the new size and iupdate. */
    method WriteBytes(i: int, src: seq<int>, off: int, bad: int) returns (tot: int)
      requires Valid() && 0 <= i < inode.Length && Bytes(src)
      requires 0 <= off <= inode[i].size && off + |src| <= MAXFILE * BSIZE
      modifies bits, disk, inode, dinode, this`logged, this`calls, this`owner
      ensures Valid() && 0 <= tot <= |src| && Overwritten(old(Snapshot()), Snapshot(), i, off, src[..tot])
      ensures Stops(off, |src|, tot, bad, Full())
      ensures Covers(old(Snapshot()), Snapshot(), old(logged), logged, bmapstart)
      ensures CoversInodes(old(dinode[..]), dinode[..], logged, inodestart)
      ensures |logged| <= |old(logged)| + LogSpan(off, |src|, disk.Length <= BPB)
      ensures LastFits(calls, |old(logged)| + LogSpan(off, |src|, disk.Length <= BPB))
    {
      ghost var fs, l0 := Snapshot(), logged;
      assert MappedTo(fs, i, fs.inodes[i].size);
      tot := WriteLoop(i, src, off, bad);
      ghost var before := calls;
      FinishBytes(i, src, off, tot, fs, l0);
      LastCall(before, inodestart + i / IPB, |l0| + LogSpan(off, |src|, disk.Length <= BPB));
    }

    /** The end of writei, seen from its start. */
    method FinishBytes(i: int, src: seq<int>, off: int, tot: int, ghost fs: Fs, ghost l0: set<int>)
      requires Layout() && Noted() && 0 <= i < inode.Length && WritingTo(fs, Snapshot(), owner, i, off, src, tot)
      requires NoHoles(fs) && 0 <= off <= fs.inodes[i].size && off + tot <= MAXFILE * BSIZE && dinode[..] == fs.inodes
      requires Covers(fs, Snapshot(), l0, logged, bmapstart)
      modifies inode, dinode, this`logged, this`calls
      ensures Valid() && Overwritten(fs, Snapshot(), i, off, src[..tot])
      ensures Covers(fs, Snapshot(), l0, logged, bmapstart)
      ensures CoversInodes(old(dinode[..]), dinode[..], logged, inodestart)
      ensures Full() == old(Full()) && |logged| <= |old(logged)| + 1 && calls == old(calls) + [inodestart + i / IPB]
    {
      ghost var gs, l1 := Snapshot(), logged;
      SetSize(i, off + tot);
      WriteEnds(fs, gs, Snapshot(), owner, i, off, src, tot, l0, l1, logged, bmapstart);
      InodeCovers(old(dinode[..]), dinode[..], i, logged, inodestart);
    }

    /** The end of writei: the file is at least end bytes long, and its inode is written back. */
    method SetSize(i: int, end: int)
      requires Layout() && Noted() && 0 <= i < inode.Length && 0 <= end <= MAXFILE * BSIZE
      modifies inode, dinode, this`logged, this`calls
      ensures Noted() && logged == old(logged) + {inodestart + i / IPB} && calls == old(calls) + [inodestart + i / IPB]
      ensures if end > old(inode[i].size) then Resize(old(Snapshot()), Snapshot(), i, end)
              else Snapshot() == old(Snapshot())
      ensures inode[..] == old(inode[..])[i := inode[i]] && dinode[..] == old(dinode[..])[i := inode[i]]
      ensures Full() == old(Full()) && |logged| <= |old(logged)| + 1
    {
      if end > inode[i].size {
        inode[i] := Inode(end, inode[i].addrs);
      }
      Iupdate(i);
    }

    // ---- readi

    /** One round of readi's loop.  bmap finds the block mapped: there are no holes. */
    method ReadBlock(i: int, off: int, m: int, ghost file: seq<int>) returns (d: seq<int>)
      requires Valid() && 0 <= i < inode.Length && 0 <= off && 0 < m
      requires off + m <= inode[i].size && off % BSIZE + m <= BSIZE && file == Contents(Snapshot(), i)
      modifies bits, disk, inode, this`logged, this`calls, this`owner
      ensures Valid() && Snapshot() == old(Snapshot()) && logged == old(logged)
      ensures off + m <= |file| && d == file[off..off + m]
    {
      ghost var fs := Snapshot();
      assert MappedTo(fs, i, fs.inodes[i].size);
      assert Ref(fs, i, FileSlot(off / BSIZE)) != 0;
      ghost var marks;
      var a;
      a, marks := Bmap(i, off / BSIZE);
      assert SlotOk(fs, owner, i, FileSlot(off / BSIZE)) && OwnedOk(fs, owner, a);
      ReadSlice(fs, i, off, m);
      d := disk[a].bytes[off % BSIZE..off % BSIZE + m];
    }

    /** readi's loop: the bytes from off to end.  The copy for the bad-th block fails. */
    method ReadLoop(i: int, off: int, end: int, bad: int) returns (ok: bool, dst: seq<int>)
      requires Valid() && 0 <= i < inode.Length && 0 <= off <= end <= inode[i].size
      modifies bits, disk, inode, this`logged, this`calls, this`owner
      ensures Valid() && Snapshot() == old(Snapshot()) && logged == old(logged)
      ensures ok ==> dst == old(Contents(Snapshot(), i))[off..end]
      ensures ok <==> !(0 <= bad < Span(off, end - off))
    {
      ghost var fs, file := Snapshot(), Contents(Snapshot(), i);
      var at, c := off, 0;
      dst := [];
      while at < end
        invariant Reading(file, off, end, at, c, bad, dst)
        invariant Valid() && Snapshot() == fs && logged == old(logged)
      {
        var m := Piece(at, end - at);
        var d := ReadBlock(i, at, m, file);
        ReadingStep(file, off, end, at, c, bad, dst, m, d);
        if c == bad {
          return false, [];
        }
        dst, at, c := dst + d, at + m, c + 1;
      }
      ok := true;
    }

    /** readi: the bytes that are there; -1 if a copy to user space fails. */
    method Readi(i: int, off: int, n: int, bad: int) returns (tot: int, dst: seq<int>)
      requires Valid() && 0 <= i < inode.Length && 0 <= off < WORDS && 0 <= n < WORDS
      modifies bits, disk, inode, this`logged, this`calls, this`owner
      ensures Valid() && Snapshot() == old(Snapshot()) && logged == old(logged)
      ensures tot == -1 <==> 0 <= bad < Span(off, |Stored(old(Contents(Snapshot(), i)), off, n)|)
      ensures tot != -1 ==> tot == |dst| && dst == Stored(old(Contents(Snapshot(), i)), off, n)
    {
      ghost var file := Contents(Snapshot(), i);
      StoredSlice(file, off, n);
      var size := inode[i].size;
      if off > size || (off + n) % WORDS < off {
        return 0, [];
      }
      var end := if (off + n) % WORDS > size then size else off + n;
      var ok;
      ok, dst := ReadLoop(i, off, end, bad);
      tot := if ok then |dst| else -1;
    }

    /** readi after writei gives back the bytes that were written. */
    method WriteThenRead(i: int, src: seq<int>, off: int, bad: int) returns (r: int, tot: int, back: seq<int>)
      requires Valid() && 0 <= i < inode.Length && Bytes(src) && 0 <= off < WORDS && |src| < WORDS
      modifies bits, disk, inode, dinode, this`logged, this`calls, this`owner
      ensures Valid() && -1 <= r <= |src| && (r == -1 ==> off > old(inode[i].size) || off + |src| > MAXFILE * BSIZE)
      ensures r >= 0 ==> tot == r && back == src[..r]
      ensures r >= 0 ==> Overwritten(old(Snapshot()), Snapshot(), i, off, src[..r])
    {
      ghost var fs := Snapshot();
      tot, back := 0, [];
      r := Writei(i, src, off, bad);
      if r >= 0 {
        ReadBack(Contents(fs, i), off, src[..r]);
        tot, back := Readi(i, off, r, -1);
      }
    }

    // ---- itrunc.  false means that bfree would have panicked.

    /** bfree of a direct block or the indirect block, and its slot cleared. */
    method TruncSlot(i: int, k: int) returns (ok: bool)
      requires Layout() && Noted() && 0 <= i < inode.Length && 0 <= k <= NDIRECT
      requires OwnUpTo(Snapshot(), owner, i, if k == NDIRECT then NINDIRECT else 0) && inode[i].addrs[k] != 0
      modifies bits, inode, this`logged, this`calls, this`owner
      ensures Noted()
      ensures ok && Own(Snapshot(), owner) && owner == old(owner) - {old(inode[i].addrs[k])}
      ensures old(inode[i].addrs[k]) in old(owner) && old(owner)[old(inode[i].addrs[k])] == Slot(i, k)
      ensures inode[..] == old(inode[..])[i := Inode(old(inode[i].size), old(inode[i].addrs)[k := 0])]
      ensures Covers(old(Snapshot()), Snapshot(), old(logged), logged, bmapstart)
    {
      ghost var fs := Snapshot();
      var b := inode[i].addrs[k];
      assert Ref(fs, i, k) == b && SlotOk(fs, owner, i, k) && OwnedOk(fs, owner, b) && UsedOk(fs, owner, b);
      ok := Bfree(b);
      inode[i] := Inode(inode[i].size, inode[i].addrs[k := 0]);
      CoversOne(fs, Snapshot(), old(logged), logged, bmapstart, b);
      FreeSlotOwn(fs, Snapshot(), owner, i, k);
      owner := owner - {b};
    }

    method TruncDirect(i: int) returns (ok: bool)
      requires Layout() && Noted() && 0 <= i < inode.Length && Own(Snapshot(), owner)
      modifies bits, inode, this`logged, this`calls, this`owner
      ensures Noted()
      ensures ok && Own(Snapshot(), owner) && Fewer(old(owner), owner, i)
      ensures inode[..] == old(inode[..])[i := inode[i]]
      ensures forall k :: 0 <= k < NDIRECT ==> inode[i].addrs[k] == 0
      ensures inode[i].addrs[NDIRECT] == old(inode[i].addrs[NDIRECT])
      ensures Covers(old(Snapshot()), Snapshot(), old(logged), logged, bmapstart)
    {
      ghost var fs, l0 := Snapshot(), logged;
      CoversSame(fs, fs, l0, l0, bmapstart);
      ok := true;
      var k := 0;
      while k < NDIRECT
        invariant Noted() && 0 <= k <= NDIRECT && ok && Own(Snapshot(), owner) && Fewer(old(owner), owner, i)
        invariant inode[..] == old(inode[..])[i := inode[i]]
        invariant forall l :: 0 <= l < k ==> inode[i].addrs[l] == 0
        invariant inode[i].addrs[NDIRECT] == old(inode[i].addrs[NDIRECT])
        invariant Covers(fs, Snapshot(), l0, logged, bmapstart)
      {
        if inode[i].addrs[k] != 0 {
          ghost var gs, l1 := Snapshot(), logged;
          ok := TruncSlot(i, k);
          CoversTrans(fs, gs, Snapshot(), l0, l1, logged, bmapstart);
        }
        k := k + 1;
      }
    }

    method TruncEntries(i: int) returns (ok: bool)
      requires Layout() && Noted() && 0 <= i < inode.Length && Own(Snapshot(), owner) && inode[i].addrs[NDIRECT] != 0
      modifies bits, this`logged, this`calls, this`owner
      ensures Noted()
      ensures ok && OwnUpTo(Snapshot(), owner, i, NINDIRECT) && Fewer(old(owner), owner, i)
      ensures Covers(old(Snapshot()), Snapshot(), old(logged), logged, bmapstart)
    {
      ghost var gs, l0 := Snapshot(), logged;
      CoversSame(gs, gs, l0, l0, bmapstart);
      ok := true;
      var ind := inode[i].addrs[NDIRECT];
      assert Ref(Snapshot(), i, NDIRECT) == ind;
      assert SlotOk(Snapshot(), owner, i, NDIRECT) && OwnedOk(Snapshot(), owner, ind);
      var j := 0;
      while j < NINDIRECT
        invariant Noted() && 0 <= j <= NINDIRECT && ok && OwnUpTo(Snapshot(), owner, i, j)
        invariant Fewer(old(owner), owner, i) && Covers(gs, Snapshot(), l0, logged, bmapstart)
      {
        ghost var fs, l1 := Snapshot(), logged;
        ok := TruncEntry(i, j, ind);
        CoversTrans(gs, fs, Snapshot(), l0, l1, logged, bmapstart);
        j := j + 1;
      }
    }

    /** bfree of one entry of the indirect block, if it is in use. */
    method TruncEntry(i: int, j: int, ind: int) returns (ok: bool)
      requires Layout() && Noted() && 0 <= i < inode.Length && 0 <= j < NINDIRECT && OwnUpTo(Snapshot(), owner, i, j)
      requires 0 < ind == inode[i].addrs[NDIRECT] < disk.Length
      modifies bits, this`logged, this`calls, this`owner
      ensures Noted()
      ensures ok && OwnUpTo(Snapshot(), owner, i, j + 1) && Fewer(old(owner), owner, i)
      ensures Covers(old(Snapshot()), Snapshot(), old(logged), logged, bmapstart)
    {
      ghost var fs, l1 := Snapshot(), logged;
      ok := true;
      var b := Word(disk[ind], j);
      assert Ref(fs, i, NDIRECT + 1 + j) == b;
      if b != 0 {
        assert SlotOk(fs, owner, i, NDIRECT + 1 + j) && OwnedOk(fs, owner, b) && UsedOk(fs, owner, b);
        ok := Bfree(b);
        CoversOne(fs, Snapshot(), l1, logged, bmapstart, b);
        FreeEntryOwn(fs, Snapshot(), owner, i, j);
        owner := owner - {b};
      } else {
        CoversSame(fs, fs, l1, l1, bmapstart);
        SkipEntryOwn(fs, owner, i, j);
      }
    }

    /** Every slot of inode i, the indirect block with its entries last. */
    method TruncSlots(i: int) returns (ok: bool)
      requires Layout() && Noted() && 0 <= i < inode.Length && Own(Snapshot(), owner)
      modifies bits, inode, this`logged, this`calls, this`owner
      ensures Noted()
      ensures ok && Own(Snapshot(), owner) && Fewer(old(owner), owner, i)
      ensures inode[..] == old(inode[..])[i := inode[i]]
      ensures forall k :: 0 <= k <= NDIRECT ==> inode[i].addrs[k] == 0
      ensures Covers(old(Snapshot()), Snapshot(), old(logged), logged, bmapstart)
    {
      ghost var fs, l0 := Snapshot(), logged;
      ok := TruncDirect(i);
      if inode[i].addrs[NDIRECT] != 0 {
        ghost var gs, l1 := Snapshot(), logged;
        ok := TruncEntries(i);
        CoversTrans(fs, gs, Snapshot(), l0, l1, logged, bmapstart);
        ghost var hs, l2 := Snapshot(), logged;
        ok := TruncSlot(i, NDIRECT);
        CoversTrans(fs, hs, Snapshot(), l0, l2, logged, bmapstart);
      }
    }

    /** itrunc frees exactly the blocks of inode i. */
    method Itrunc(i: int) returns (ok: bool)
      requires Valid() && 0 <= i < inode.Length
      modifies bits, inode, dinode, this`logged, this`calls, this`owner
      ensures ok && Valid() && Emptied(inode[i])
      ensures inode[..] == old(inode[..])[i := inode[i]]
      ensures owner == Others(old(owner), i)
      ensures forall b :: 0 <= b < disk.Length ==>
        (Snapshot().used[b] <==> old(Snapshot().used)[b] && !(b in old(owner) && old(owner)[b].inum == i))
      ensures forall j :: 0 <= j < inode.Length && j != i ==> Contents(Snapshot(), j) == old(Contents(Snapshot(), j))
      ensures Covers(old(Snapshot()), Snapshot(), old(logged), logged, bmapstart)
      ensures CoversInodes(old(dinode[..]), dinode[..], logged, inodestart)
    {
      ghost var fs, was := Snapshot(), owner;
      ok := TruncSlots(i);
      ghost var gs, l1 := Snapshot(), logged;
      inode[i] := Inode(0, inode[i].addrs);
      FinishTrunc(fs, gs, Snapshot(), was, owner, i);
      FinishUsed(fs, Snapshot(), was, owner, i);
      Iupdate(i);
      InodeCovers(old(dinode[..]), dinode[..], i, logged, inodestart);
      CoversSame(gs, Snapshot(), l1, logged, bmapstart);
      CoversTrans(fs, gs, Snapshot(), old(logged), l1, logged, bmapstart);
    }

    // ---- filewrite

    /** The bounds on one transaction: every log_write finds room, and with a
        single bitmap block there are few blocks. */
    ghost predicate Small(calls: seq<int>) {
      Orderly(calls) && |Called(calls)| <= MAXOPBLOCKS && (disk.Length <= BPB ==> |Called(calls)| <= 7)
    }

    ghost predicate AllSmall(txns: seq<seq<int>>) {
      forall t {:trigger Small(txns[t])} :: 0 <= t < |txns| ==> Small(txns[t])
    }

    lemma AllSmallNext(txns: seq<seq<int>>, calls: seq<int>)
      requires AllSmall(txns) && Small(calls)
      ensures AllSmall(txns + [calls])
    {
      var more := txns + [calls];
      forall t | 0 <= t < |more| ensures Small(more[t]) {
        assert t < |txns| ==> more[t] == txns[t] && Small(txns[t]);
      }
    }

    ghost predicate Full()
      reads bits, disk, inode
      requires Layout()
    {
      forall b :: 0 <= b < disk.Length ==> Snapshot().used[b]
    }

    /** begin_op, writei of a chunk, end_op. */
    method Transaction(i: int, d: seq<int>, off: int, bad: int) returns (r: int, ghost wrote: seq<int>)
      requires Valid() && 0 <= i < inode.Length && Bytes(d) && |d| <= CHUNK && 0 <= off < WORDS
      modifies bits, disk, inode, dinode, this`logged, this`calls, this`owner
      ensures Valid() && Small(calls) && -1 <= r <= |d| && wrote == (if r == -1 then [] else d[..r])
      ensures r == -1 <==> off > old(inode[i].size) || off + |d| > MAXFILE * BSIZE
      ensures if r == -1 then Snapshot() == old(Snapshot()) else Overwritten(old(Snapshot()), Snapshot(), i, off, wrote)
      ensures 0 <= r ==> Stops(off, |d|, r, bad, Full())
      ensures Covers(old(Snapshot()), Snapshot(), {}, Called(calls), bmapstart)
      ensures CoversInodes(old(dinode[..]), dinode[..], Called(calls), inodestart)
    {
      logged, calls := {}, [];
      r := Writei(i, d, off, bad);
      wrote := if r == -1 then [] else d[..r];
      if r >= 0 {
        OrderlyLast(calls);
      }
    }

    /** One round of filewrite's loop: n1 more bytes after the done first ones. */
    method WriteSome(i: int, src: seq<int>, done: int, n1: int, off: int, bad: int, ghost fs: Fs, ghost off0: int)
      returns (r: int, ghost next: int)
      requires Valid() && 0 <= i < inode.Length && Bytes(src) && 0 <= done && 0 < n1 <= CHUNK && done + n1 <= |src|
      requires 0 <= off0 && off == off0 + done < WORDS && |fs.inodes| == inode.Length
      requires Filing(fs, Snapshot(), i, off0, src, done)
      modifies bits, disk, inode, dinode, this`logged, this`calls, this`owner
      ensures Valid() && Small(calls) && -1 <= r <= n1 && next == (if r > 0 then done + r else done)
      ensures off0 + next < WORDS && Filing(fs, Snapshot(), i, off0, src, next)
      ensures r < n1 && bad < 0 ==> Full() || off0 > fs.inodes[i].size || off + n1 > MAXFILE * BSIZE
      ensures Covers(old(Snapshot()), Snapshot(), {}, Called(calls), bmapstart)
      ensures CoversInodes(old(dinode[..]), dinode[..], Called(calls), inodestart)
    {
      ghost var gs, wrote := Snapshot(), [];
      FiledEnd(fs, gs, i, off0, src[..done]);
      r, wrote := Transaction(i, src[done..done + n1], off, bad);
      next := if r > 0 then done + r else done;
      SliceJoin(src, done, n1, r, wrote, next);
      FiledStep(fs, gs, Snapshot(), i, off0, off, src[..done], wrote, src[..next], r);
    }

    /** filewrite's loop from off0 on; the copy for block bads[t] of transaction t fails. */
    method WriteAll(i: int, src: seq<int>, n: int, off0: int, bads: seq<int>)
      returns (ok: bool, off: int, ghost done: int, ghost txns: seq<seq<int>>)
      requires Valid() && 0 <= i < inode.Length && Bytes(src) && n <= |src| && 0 <= off0 < WORDS
      modifies bits, disk, inode, dinode, this`logged, this`calls, this`owner
      ensures Valid() && 0 <= done <= |src| && off == off0 + done && ok == (done == n)
      ensures n <= 0 ==> done == 0 && Snapshot() == old(Snapshot())
      ensures Filing(old(Snapshot()), Snapshot(), i, off0, src, done) && AllSmall(txns)
      ensures done < n && NoneFail(bads) ==> Full() || off0 > old(inode[i].size) || off0 + n > MAXFILE * BSIZE
      ensures AllCovered(old(Snapshot()), old(dinode[..]), Snapshot(), dinode[..], txns, bmapstart, inodestart)
    {
      txns, done := [], 0;
      ghost var fs, d := Snapshot(), dinode[..];
      FiledNone(fs, i, off0, src[..0]);
      AllCoveredNone(fs, d, bmapstart, inodestart);
      var k, c := 0, 0;
      off := off0;
      while k < n
        invariant 0 <= k && (k == 0 || k <= n) && done == k && off == off0 + done < WORDS && Valid()
        invariant n <= 0 ==> k == 0 && Snapshot() == fs
        invariant Filing(fs, Snapshot(), i, off0, src, done) && AllSmall(txns)
        invariant AllCovered(fs, d, Snapshot(), dinode[..], txns, bmapstart, inodestart)
        decreases n - k
      {
        var n1 := if n - k > CHUNK then CHUNK else n - k;
        var r;
        ghost var gs, e := Snapshot(), dinode[..];
        r, done := WriteSome(i, src, k, n1, off, if 0 <= c < |bads| then bads[c] else -1, fs, off0);
        if r > 0 {
          off := off + r;
        }
        AllSmallNext(txns, calls);
        AllCoveredNext(fs, d, gs, e, Snapshot(), dinode[..], txns, calls, bmapstart, inodestart);
        txns, c := txns + [calls], c + 1;
        if r != n1 {
          break;
        }
        k := k + r;
      }
      ok := k == n;
    }

    /** filewrite on an inode.  What is written is always a prefix of src, at
        the old offset, which moves to its end. */
    method FileWrite(f: File, src: seq<int>, n: int, bads: seq<int>)
      returns (ret: int, ghost done: int, ghost txns: seq<seq<int>>)
      requires Valid() && 0 <= f.inum < inode.Length && Bytes(src) && n <= |src| && 0 <= f.off < WORDS
      modifies bits, disk, inode, dinode, this`logged, this`calls, this`owner, f`off
      ensures Valid() && 0 <= done <= |src| && f.off == old(f.off) + done
      ensures ret == (if f.writable && done == n then n else -1)
      ensures n <= 0 || !f.writable ==> done == 0 && Snapshot() == old(Snapshot())
      ensures Filed(old(Snapshot()), Snapshot(), f.inum, old(f.off), src[..done]) && AllSmall(txns)
      ensures f.writable && done < n && NoneFail(bads) ==>
        Full() || old(f.off > inode[f.inum].size) || old(f.off) + n > MAXFILE * BSIZE
      ensures AllCovered(old(Snapshot()), old(dinode[..]), Snapshot(), dinode[..], txns, bmapstart, inodestart)
    {
      txns, done := [], 0;
      AllCoveredNone(Snapshot(), dinode[..], bmapstart, inodestart);
      if !f.writable {
        FiledNone(Snapshot(), f.inum, f.off, src[..0]);
        return -1, done, txns;
      }
      var ok, off;
      ok, off, done, txns := WriteAll(f.inum, src, n, f.off, bads);
      f.off := off;
      ret := if ok then n else -1;
    }
  }
}
