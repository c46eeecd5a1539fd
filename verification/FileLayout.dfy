/** The on-disk layout of kernel/fs.c: a bitmap, inodes with direct and
    indirect block addresses, and what the operations on them do to the bytes
    of files. */
module FileLayout {
  import opened Params

  const BSIZE := 1024
  const NDIRECT := 12
  const NINDIRECT := 256          // BSIZE / sizeof(uint)
  const MAXFILE := 268            // NDIRECT + NINDIRECT
  const SLOTS := 269              // direct slots, the indirect slot, indirect entries

  datatype Block = Block(bytes: seq<int>)
  datatype Inode = Inode(size: int, addrs: seq<int>)

  /** Blocks below meta are the boot block, superblock, log, inodes and bitmap. */
  datatype Fs = Fs(meta: int, used: seq<bool>, disk: seq<Block>, inodes: seq<Inode>)

  /** Slot k of inode inum: direct for k < NDIRECT, the indirect block for
      k == NDIRECT, an entry of the indirect block above that. */
  datatype Slot = Slot(inum: int, k: int)

  // ---- words in a block

  predicate BlockOk(b: Block) {
    |b.bytes| == BSIZE && forall x :: 0 <= x < BSIZE ==> 0 <= b.bytes[x] < 256
  }

  /** The uint at index j, least significant byte first. */
  function Word(b: Block, j: int): (w: int)
    requires BlockOk(b) && 0 <= j < NINDIRECT
    ensures 0 <= w < WORDS
  {
    b.bytes[4 * j] + 0x100 * b.bytes[4 * j + 1] + 0x1_0000 * b.bytes[4 * j + 2] + 0x100_0000 * b.bytes[4 * j + 3]
  }

  function SetWord(b: Block, j: int, w: int): (r: Block)
    requires BlockOk(b) && 0 <= j < NINDIRECT && 0 <= w < WORDS
    ensures BlockOk(r)
  {
    Block(b.bytes[4 * j := w % 0x100][4 * j + 1 := w / 0x100 % 0x100]
                 [4 * j + 2 := w / 0x1_0000 % 0x100][4 * j + 3 := w / 0x100_0000])
  }

  lemma Digits(w: int)
    requires 0 <= w < WORDS
    ensures w == w % 0x100 + 0x100 * (w / 0x100 % 0x100) + 0x1_0000 * (w / 0x1_0000 % 0x100)
                 + 0x100_0000 * (w / 0x100_0000)
  {
    assert w / 0x1_0000 == w / 0x100 / 0x100 && w / 0x100_0000 == w / 0x1_0000 / 0x100;
  }

  lemma SetWordAt(b: Block, j: int, w: int, l: int)
    requires BlockOk(b) && 0 <= j < NINDIRECT && 0 <= w < WORDS && 0 <= l < NINDIRECT
    ensures Word(SetWord(b, j, w), l) == if l == j then w else Word(b, l)
  {
    var r := SetWord(b, j, w);
    if l == j {
      Digits(w);
      assert r.bytes[4 * j] == w % 0x100 && r.bytes[4 * j + 1] == w / 0x100 % 0x100;
      assert r.bytes[4 * j + 2] == w / 0x1_0000 % 0x100 && r.bytes[4 * j + 3] == w / 0x100_0000;
    } else {
      assert r.bytes[4 * l] == b.bytes[4 * l] && r.bytes[4 * l + 1] == b.bytes[4 * l + 1];
      assert r.bytes[4 * l + 2] == b.bytes[4 * l + 2] && r.bytes[4 * l + 3] == b.bytes[4 * l + 3];
    }
  }

  function Zeros(n: nat): (s: seq<int>)
    ensures |s| == n && forall x :: 0 <= x < n ==> s[x] == 0
  {
    if n == 0 then [] else Zeros(n - 1) + [0]
  }

  function ZeroBlock(): (b: Block)
    ensures BlockOk(b) && (forall x :: 0 <= x < BSIZE ==> b.bytes[x] == 0)
  {
    Block(Zeros(BSIZE))
  }

  // ---- slots and ownership

  predicate InodeOk(ip: Inode) {
    |ip.addrs| == NDIRECT + 1 && 0 <= ip.size <= MAXFILE * BSIZE
  }

  ghost predicate Shape(fs: Fs) {
    && 0 < fs.meta <= |fs.used| == |fs.disk| < WORDS
    && (forall b :: 0 <= b < |fs.disk| ==> BlockOk(fs.disk[b]))
    && (forall i :: 0 <= i < |fs.inodes| ==> InodeOk(fs.inodes[i]))
  }

  predicate IsInode(fs: Fs, i: int) {
    0 <= i < |fs.inodes|
  }

  predicate IsSlot(fs: Fs, i: int, k: int) {
    IsInode(fs, i) && 0 <= k < SLOTS
  }

  /** The block in slot k of inode i; 0 if there is none. */
  ghost function Ref(fs: Fs, i: int, k: int): (a: int)
    requires Shape(fs) && IsSlot(fs, i, k)
  {
    if k <= NDIRECT then fs.inodes[i].addrs[k]
    else
      var a := fs.inodes[i].addrs[NDIRECT];
      if 0 < a < |fs.disk| then Word(fs.disk[a], k - NDIRECT - 1) else 0
  }

  predicate IsData(fs: Fs, b: int) {
    0 < fs.meta <= b < |fs.used|
  }

  ghost predicate OwnedOk(fs: Fs, owner: map<int, Slot>, b: int)
    requires Shape(fs) && b in owner
  {
    IsData(fs, b) && IsSlot(fs, owner[b].inum, owner[b].k) && Ref(fs, owner[b].inum, owner[b].k) == b
  }

  ghost predicate SlotOk(fs: Fs, owner: map<int, Slot>, i: int, k: int)
    requires Shape(fs) && IsSlot(fs, i, k)
  {
    var a := Ref(fs, i, k);
    a != 0 ==> a in owner && owner[a] == Slot(i, k)
  }

  predicate UsedOk(fs: Fs, owner: map<int, Slot>, b: int)
    requires 0 <= b < |fs.used|
  {
    fs.used[b] <==> b < fs.meta || b in owner
  }

  /** owner is the exact account of the data blocks: each marked block is in
      one slot, each slot's block is marked.  While itrunc frees the entries of
      inode it's indirect block, the first lim of them no longer count. */
  ghost predicate OwnUpTo(fs: Fs, owner: map<int, Slot>, it: int, lim: int) {
    && Shape(fs)
    && (forall b {:trigger OwnedOk(fs, owner, b)} :: b in owner ==> OwnedOk(fs, owner, b))
    && (forall i, k {:trigger SlotOk(fs, owner, i, k)} ::
          IsSlot(fs, i, k) && !(i == it && NDIRECT < k <= NDIRECT + lim) ==> SlotOk(fs, owner, i, k))
    && (forall b :: b in owner && owner[b].inum == it ==> !(NDIRECT < owner[b].k <= NDIRECT + lim))
    && (forall b {:trigger UsedOk(fs, owner, b)} :: 0 <= b < |fs.used| ==> UsedOk(fs, owner, b))
  }

  ghost predicate Own(fs: Fs, owner: map<int, Slot>) {
    && Shape(fs)
    && (forall b {:trigger OwnedOk(fs, owner, b)} :: b in owner ==> OwnedOk(fs, owner, b))
    && (forall i, k {:trigger SlotOk(fs, owner, i, k)} :: IsSlot(fs, i, k) ==> SlotOk(fs, owner, i, k))
    && (forall b {:trigger UsedOk(fs, owner, b)} :: 0 <= b < |fs.used| ==> UsedOk(fs, owner, b))
  }

  // ---- bytes

  function FileSlot(bn: int): (k: int) {
    if bn < NDIRECT then bn else bn + 1
  }

  ghost function ByteOf(fs: Fs, a: int, x: int): (v: int)
    requires Shape(fs) && 0 <= x < BSIZE
  {
    if 0 < a < |fs.disk| then fs.disk[a].bytes[x] else 0
  }

  /** Byte x of inode i, in or beyond the file; 0 where no block is mapped. */
  ghost function ByteAt(fs: Fs, i: int, x: int): (v: int)
    requires Shape(fs) && IsInode(fs, i) && 0 <= x < MAXFILE * BSIZE
  {
    ByteOf(fs, Ref(fs, i, FileSlot(x / BSIZE)), x % BSIZE)
  }

  // ---- balloc and the slot that takes the block

  ghost predicate Alloc(fs: Fs, gs: Fs, b: int) {
    && IsData(fs, b) && |fs.disk| == |fs.used| && !fs.used[b]
    && gs.meta == fs.meta && gs.inodes == fs.inodes
    && gs.used == fs.used[b := true] && gs.disk == fs.disk[b := ZeroBlock()]
  }

  ghost predicate Attach(fs: Fs, gs: Fs, i: int, k: int, b: int)
    requires Shape(fs)
  {
    && IsSlot(fs, i, k) && 0 < b < |fs.used| && gs.meta == fs.meta && gs.used == fs.used
    && if k <= NDIRECT then
         gs.disk == fs.disk && gs.inodes == fs.inodes[i := Inode(fs.inodes[i].size, fs.inodes[i].addrs[k := b])]
       else
         var a := fs.inodes[i].addrs[NDIRECT];
         0 < a < |fs.disk| && gs.inodes == fs.inodes && gs.disk == fs.disk[a := SetWord(fs.disk[a], k - NDIRECT - 1, b)]
  }

  lemma AllocShape(fs: Fs, gs: Fs, b: int)
    requires Shape(fs) && Alloc(fs, gs, b)
    ensures Shape(gs)
  {}

  lemma AttachShape(fs: Fs, gs: Fs, i: int, k: int, b: int)
    requires Shape(fs) && Attach(fs, gs, i, k, b)
    ensures Shape(gs)
  {}

  /** Growing puts b into slot (i, k) and touches no other slot. */
  lemma GrowRef(fs: Fs, fs1: Fs, gs: Fs, owner: map<int, Slot>, i: int, k: int, b: int, j: int, l: int)
    requires Own(fs, owner) && Alloc(fs, fs1, b) && Shape(fs1) && Attach(fs1, gs, i, k, b) && Shape(gs)
    requires IsSlot(fs, i, k) && Ref(fs, i, k) == 0 && IsSlot(fs, j, l)
    ensures Ref(gs, j, l) == if j == i && l == k then b else Ref(fs, j, l)
  {
    assert UsedOk(fs, owner, b);
    assert SlotOk(fs, owner, i, NDIRECT) && SlotOk(fs, owner, j, NDIRECT);
    var a := fs.inodes[i].addrs[NDIRECT];
    if k > NDIRECT {
      assert a == Ref(fs, i, NDIRECT) && a != 0;
      if l > NDIRECT {
        SetWordAt(fs.disk[a], k - NDIRECT - 1, b, l - NDIRECT - 1);
      }
    }
  }

  lemma GrowOwn(fs: Fs, fs1: Fs, gs: Fs, owner: map<int, Slot>, i: int, k: int, b: int)
    requires Own(fs, owner) && Alloc(fs, fs1, b) && Shape(fs1) && Attach(fs1, gs, i, k, b)
    requires IsSlot(fs, i, k) && Ref(fs, i, k) == 0
    ensures Own(gs, owner[b := Slot(i, k)])
  {
    AttachShape(fs1, gs, i, k, b);
    var owner2 := owner[b := Slot(i, k)];
    assert UsedOk(fs, owner, b);
    forall j, l | IsSlot(gs, j, l) ensures SlotOk(gs, owner2, j, l) {
      GrowRef(fs, fs1, gs, owner, i, k, b, j, l);
      assert SlotOk(fs, owner, j, l);
    }
    forall c | c in owner2 ensures OwnedOk(gs, owner2, c) {
      assert c != b ==> OwnedOk(fs, owner, c);
      GrowRef(fs, fs1, gs, owner, i, k, b, owner2[c].inum, owner2[c].k);
    }
    forall c | 0 <= c < |gs.used| ensures UsedOk(gs, owner2, c) {
      assert UsedOk(fs, owner, c);
    }
  }

  /** A new block changes no byte of any file: it reads as zeros, like the gap before. */
  lemma GrowBytes(fs: Fs, fs1: Fs, gs: Fs, owner: map<int, Slot>, i: int, k: int, b: int, j: int, x: int)
    requires Own(fs, owner) && Alloc(fs, fs1, b) && Shape(fs1) && Attach(fs1, gs, i, k, b) && Shape(gs)
    requires IsSlot(fs, i, k) && Ref(fs, i, k) == 0 && IsInode(fs, j) && 0 <= x < MAXFILE * BSIZE
    ensures ByteAt(gs, j, x) == ByteAt(fs, j, x)
  {
    var l := FileSlot(x / BSIZE);
    GrowRef(fs, fs1, gs, owner, i, k, b, j, l);
    var a := Ref(fs, j, l);
    assert UsedOk(fs, owner, b) && SlotOk(fs, owner, j, l) && SlotOk(fs, owner, i, NDIRECT);
    if a != 0 {
      assert OwnedOk(fs, owner, a);
    }
  }

  // ---- writei's copy into a block, and the size

  function Patch(b: Block, o: int, d: seq<int>): (r: Block)
    requires BlockOk(b) && 0 <= o && o + |d| <= BSIZE && Bytes(d)
    ensures BlockOk(r)
    ensures forall x :: 0 <= x < BSIZE ==> r.bytes[x] == if o <= x < o + |d| then d[x - o] else b.bytes[x]
  {
    Block(b.bytes[..o] + d + b.bytes[o + |d|..])
  }

  predicate Bytes(d: seq<int>) {
    forall x :: 0 <= x < |d| ==> 0 <= d[x] < 256
  }

  ghost predicate Store(fs: Fs, gs: Fs, i: int, bn: int, o: int, d: seq<int>)
    requires Shape(fs) && IsInode(fs, i) && 0 <= bn < MAXFILE
  {
    var a := Ref(fs, i, FileSlot(bn));
    && 0 < a < |fs.disk| && 0 <= o && o + |d| <= BSIZE && Bytes(d)
    && gs.meta == fs.meta && gs.used == fs.used && gs.inodes == fs.inodes
    && gs.disk == fs.disk[a := Patch(fs.disk[a], o, d)]
  }

  lemma StoreShape(fs: Fs, gs: Fs, i: int, bn: int, o: int, d: seq<int>)
    requires Shape(fs) && IsInode(fs, i) && 0 <= bn < MAXFILE && Store(fs, gs, i, bn, o, d)
    ensures Shape(gs)
  {}

  /** A data block is nobody's indirect block. */
  lemma StoreRef(fs: Fs, gs: Fs, owner: map<int, Slot>, i: int, bn: int, o: int, d: seq<int>, j: int, l: int)
    requires Own(fs, owner) && IsInode(fs, i) && 0 <= bn < MAXFILE && Store(fs, gs, i, bn, o, d) && Shape(gs)
    requires IsSlot(fs, j, l)
    ensures Ref(gs, j, l) == Ref(fs, j, l)
  {
    assert SlotOk(fs, owner, i, FileSlot(bn)) && SlotOk(fs, owner, j, NDIRECT);
  }

  lemma StoreOwn(fs: Fs, gs: Fs, owner: map<int, Slot>, i: int, bn: int, o: int, d: seq<int>)
    requires Own(fs, owner) && IsInode(fs, i) && 0 <= bn < MAXFILE && Store(fs, gs, i, bn, o, d)
    ensures Own(gs, owner)
  {
    StoreShape(fs, gs, i, bn, o, d);
    forall j, l | IsSlot(gs, j, l) ensures SlotOk(gs, owner, j, l) {
      StoreRef(fs, gs, owner, i, bn, o, d, j, l);
      assert SlotOk(fs, owner, j, l);
    }
    forall c | c in owner ensures OwnedOk(gs, owner, c) {
      assert OwnedOk(fs, owner, c);
      StoreRef(fs, gs, owner, i, bn, o, d, owner[c].inum, owner[c].k);
    }
    forall c | 0 <= c < |gs.used| ensures UsedOk(gs, owner, c) {
      assert UsedOk(fs, owner, c);
    }
  }

  lemma InBlock(x: int, bn: int, o: int, n: int)
    requires 0 <= x && 0 <= o && 0 <= n && o + n <= BSIZE
    ensures bn * BSIZE + o <= x < bn * BSIZE + o + n <==> x / BSIZE == bn && o <= x % BSIZE < o + n
    ensures x / BSIZE == bn ==> x - (bn * BSIZE + o) == x % BSIZE - o
  {}

  lemma StoreBytes(fs: Fs, gs: Fs, owner: map<int, Slot>, i: int, bn: int, o: int, d: seq<int>, j: int, x: int)
    requires Own(fs, owner) && IsInode(fs, i) && 0 <= bn < MAXFILE && Store(fs, gs, i, bn, o, d) && Shape(gs)
    requires IsInode(fs, j) && 0 <= x < MAXFILE * BSIZE
    ensures ByteAt(gs, j, x) ==
      if j == i && bn * BSIZE + o <= x < bn * BSIZE + o + |d| then d[x - (bn * BSIZE + o)] else ByteAt(fs, j, x)
  {
    var l := FileSlot(x / BSIZE);
    StoreRef(fs, gs, owner, i, bn, o, d, j, l);
    assert SlotOk(fs, owner, i, FileSlot(bn)) && SlotOk(fs, owner, j, l);
    InBlock(x, bn, o, |d|);
  }

  ghost predicate Resize(fs: Fs, gs: Fs, i: int, n: int) {
    && IsInode(fs, i) && 0 <= n <= MAXFILE * BSIZE
    && gs.meta == fs.meta && gs.used == fs.used && gs.disk == fs.disk
    && gs.inodes == fs.inodes[i := Inode(n, fs.inodes[i].addrs)]
  }

  lemma ResizeRef(fs: Fs, gs: Fs, i: int, n: int, j: int, l: int)
    requires Shape(fs) && Resize(fs, gs, i, n) && Shape(gs) && IsSlot(fs, j, l)
    ensures Ref(gs, j, l) == Ref(fs, j, l)
  {}

  lemma ResizeOwn(fs: Fs, gs: Fs, owner: map<int, Slot>, i: int, n: int)
    requires Own(fs, owner) && Resize(fs, gs, i, n)
    ensures Own(gs, owner)
  {
    forall j, l | IsSlot(gs, j, l) ensures SlotOk(gs, owner, j, l) {
      ResizeRef(fs, gs, i, n, j, l);
      assert SlotOk(fs, owner, j, l);
    }
    forall c | c in owner ensures OwnedOk(gs, owner, c) {
      assert OwnedOk(fs, owner, c);
      ResizeRef(fs, gs, i, n, owner[c].inum, owner[c].k);
    }
    forall c | 0 <= c < |gs.used| ensures UsedOk(gs, owner, c) {
      assert UsedOk(fs, owner, c);
    }
  }

  // ---- itrunc's steps

  /** bfree of a direct or the indirect block, whose slot is cleared. */
  ghost predicate FreeSlot(fs: Fs, gs: Fs, i: int, k: int)
    requires Shape(fs)
  {
    && IsSlot(fs, i, k) && k <= NDIRECT
    && var b := fs.inodes[i].addrs[k];
    && 0 < b < |fs.used| && gs.meta == fs.meta && gs.disk == fs.disk && gs.used == fs.used[b := false]
    && gs.inodes == fs.inodes[i := Inode(fs.inodes[i].size, fs.inodes[i].addrs[k := 0])]
  }

  /** bfree of entry j of the indirect block, which is not cleared. */
  ghost predicate FreeEntry(fs: Fs, gs: Fs, b: int) {
    && 0 < b < |fs.used| && gs.meta == fs.meta && gs.disk == fs.disk && gs.used == fs.used[b := false]
    && gs.inodes == fs.inodes
  }

  lemma FreeSlotRef(fs: Fs, gs: Fs, i: int, k: int, j: int, l: int)
    requires Shape(fs) && FreeSlot(fs, gs, i, k) && Shape(gs) && IsSlot(fs, j, l)
    ensures Ref(gs, j, l) == if j == i && (l == k || (k == NDIRECT && l > NDIRECT)) then 0 else Ref(fs, j, l)
  {}

  lemma FreeUsed(fs: Fs, gs: Fs, owner: map<int, Slot>, b: int)
    requires 0 < fs.meta <= b < |fs.used| && gs.meta == fs.meta && gs.used == fs.used[b := false]
    requires forall c :: 0 <= c < |fs.used| ==> UsedOk(fs, owner, c)
    ensures forall c :: 0 <= c < |gs.used| ==> UsedOk(gs, owner - {b}, c)
  {
    forall c | 0 <= c < |gs.used| ensures UsedOk(gs, owner - {b}, c) {
      assert UsedOk(fs, owner, c);
    }
  }

  lemma FreeSlotOwn(fs: Fs, gs: Fs, owner: map<int, Slot>, i: int, k: int)
    requires OwnUpTo(fs, owner, i, if k == NDIRECT then NINDIRECT else 0) && FreeSlot(fs, gs, i, k)
    ensures fs.inodes[i].addrs[k] in owner
    ensures Own(gs, owner - {fs.inodes[i].addrs[k]})
  {
    var b := fs.inodes[i].addrs[k];
    assert Shape(gs);
    assert Ref(fs, i, k) == b && SlotOk(fs, owner, i, k) && OwnedOk(fs, owner, b);
    FreeUsed(fs, gs, owner, b);
    var owner2 := owner - {b};
    forall j, l | IsSlot(gs, j, l) ensures SlotOk(gs, owner2, j, l) {
      FreeSlotRef(fs, gs, i, k, j, l);
      assert !(j == i && k == NDIRECT && l > NDIRECT) ==> SlotOk(fs, owner, j, l);
    }
    forall c | c in owner2 ensures OwnedOk(gs, owner2, c) {
      assert OwnedOk(fs, owner, c);
      FreeSlotRef(fs, gs, i, k, owner[c].inum, owner[c].k);
    }
  }

  lemma SkipEntryOwn(fs: Fs, owner: map<int, Slot>, i: int, lim: int)
    requires 0 <= lim < NINDIRECT && OwnUpTo(fs, owner, i, lim) && IsInode(fs, i) && Ref(fs, i, NDIRECT + 1 + lim) == 0
    ensures OwnUpTo(fs, owner, i, lim + 1)
  {
    forall b | b in owner && owner[b].inum == i ensures !(NDIRECT < owner[b].k <= NDIRECT + lim + 1) {
      assert OwnedOk(fs, owner, b);
    }
  }

  lemma FreeEntryOwn(fs: Fs, gs: Fs, owner: map<int, Slot>, i: int, lim: int)
    requires 0 <= lim < NINDIRECT && OwnUpTo(fs, owner, i, lim) && IsInode(fs, i)
    requires Ref(fs, i, NDIRECT + 1 + lim) != 0 && FreeEntry(fs, gs, Ref(fs, i, NDIRECT + 1 + lim))
    ensures Ref(fs, i, NDIRECT + 1 + lim) in owner
    ensures OwnUpTo(gs, owner - {Ref(fs, i, NDIRECT + 1 + lim)}, i, lim + 1)
  {
    var k := NDIRECT + 1 + lim;
    var b := Ref(fs, i, k);
    assert Shape(gs);
    assert SlotOk(fs, owner, i, k) && OwnedOk(fs, owner, b);
    FreeUsed(fs, gs, owner, b);
    var owner2 := owner - {b};
    forall j, l | IsSlot(gs, j, l) && !(j == i && NDIRECT < l <= NDIRECT + lim + 1) ensures SlotOk(gs, owner2, j, l) {
      assert SlotOk(fs, owner, j, l);
      assert Ref(gs, j, l) == Ref(fs, j, l);
    }
    forall c | c in owner2
      ensures OwnedOk(gs, owner2, c) && (owner2[c].inum == i ==> !(NDIRECT < owner2[c].k <= NDIRECT + lim + 1))
    {
      assert OwnedOk(fs, owner, c);
      assert Ref(gs, owner[c].inum, owner[c].k) == Ref(fs, owner[c].inum, owner[c].k);
    }
  }

  // ---- what callers of bmap and writei see

  /** The bytes d are at off in inode i; no other byte of any inode differs. */
  ghost predicate Wrote(fs: Fs, gs: Fs, i: int, off: int, d: seq<int>) {
    && Shape(fs) && Shape(gs) && |gs.inodes| == |fs.inodes|
    && forall j, x {:trigger ByteAt(gs, j, x)} :: IsInode(fs, j) && 0 <= x < MAXFILE * BSIZE ==>
         ByteAt(gs, j, x) == if j == i && off <= x < off + |d| then d[x - off] else ByteAt(fs, j, x)
  }

  ghost predicate SameSizes(fs: Fs, gs: Fs) {
    |gs.inodes| == |fs.inodes| && forall j :: IsInode(fs, j) ==> gs.inodes[j].size == fs.inodes[j].size
  }

  /** Blocks stay where they are mapped, and the disk is the same size. */
  ghost predicate Keeps(fs: Fs, gs: Fs) {
    && Shape(fs) && Shape(gs) && |gs.inodes| == |fs.inodes| && |gs.used| == |fs.used| && gs.meta == fs.meta
    && forall j, l {:trigger Ref(gs, j, l)} :: IsSlot(fs, j, l) && Ref(fs, j, l) != 0 ==> Ref(gs, j, l) == Ref(fs, j, l)
  }

  lemma GrowSees(fs: Fs, fs1: Fs, gs: Fs, owner: map<int, Slot>, i: int, k: int, b: int)
    requires Own(fs, owner) && Alloc(fs, fs1, b) && Shape(fs1) && Attach(fs1, gs, i, k, b) && Shape(gs)
    requires IsSlot(fs, i, k) && Ref(fs, i, k) == 0
    ensures Wrote(fs, gs, i, 0, []) && SameSizes(fs, gs) && Keeps(fs, gs) && Ref(gs, i, k) == b
  {
    forall j, x | IsInode(fs, j) && 0 <= x < MAXFILE * BSIZE ensures ByteAt(gs, j, x) == ByteAt(fs, j, x) {
      GrowBytes(fs, fs1, gs, owner, i, k, b, j, x);
    }
    forall j, l | IsSlot(fs, j, l) && Ref(fs, j, l) != 0 ensures Ref(gs, j, l) == Ref(fs, j, l) {
      GrowRef(fs, fs1, gs, owner, i, k, b, j, l);
    }
    GrowRef(fs, fs1, gs, owner, i, k, b, i, k);
  }

  lemma StoreSees(fs: Fs, gs: Fs, owner: map<int, Slot>, i: int, bn: int, o: int, d: seq<int>)
    requires Own(fs, owner) && IsInode(fs, i) && 0 <= bn < MAXFILE && Store(fs, gs, i, bn, o, d) && Shape(gs)
    ensures Wrote(fs, gs, i, bn * BSIZE + o, d) && Keeps(fs, gs)
  {
    forall j, x | IsInode(fs, j) && 0 <= x < MAXFILE * BSIZE
      ensures ByteAt(gs, j, x) ==
        if j == i && bn * BSIZE + o <= x < bn * BSIZE + o + |d| then d[x - (bn * BSIZE + o)] else ByteAt(fs, j, x)
    {
      StoreBytes(fs, gs, owner, i, bn, o, d, j, x);
    }
    forall j, l | IsSlot(fs, j, l) && Ref(fs, j, l) != 0 ensures Ref(gs, j, l) == Ref(fs, j, l) {
      StoreRef(fs, gs, owner, i, bn, o, d, j, l);
    }
  }

  lemma ResizeSees(fs: Fs, gs: Fs, i: int, n: int)
    requires Shape(fs) && Resize(fs, gs, i, n) && Shape(gs)
    ensures Wrote(fs, gs, i, 0, []) && Keeps(fs, gs)
  {
    forall j, l | IsSlot(fs, j, l) ensures Ref(gs, j, l) == Ref(fs, j, l) {
      ResizeRef(fs, gs, i, n, j, l);
    }
  }

  lemma WroteTrans(fs: Fs, gs: Fs, hs: Fs, i: int, off: int, d: seq<int>, e: seq<int>)
    requires Wrote(fs, gs, i, off, d) && Wrote(gs, hs, i, off + |d|, e)
    ensures Wrote(fs, hs, i, off, d + e)
  {}

  lemma KeepsTrans(fs: Fs, gs: Fs, hs: Fs)
    requires Keeps(fs, gs) && Keeps(gs, hs)
    ensures Keeps(fs, hs)
  {
    forall j, l | IsSlot(fs, j, l) && Ref(fs, j, l) != 0 ensures Ref(hs, j, l) == Ref(fs, j, l) {
      assert Ref(gs, j, l) == Ref(fs, j, l);
    }
  }

  // ---- files

  /** Every block below byte n of inode i is mapped. */
  ghost predicate MappedTo(fs: Fs, i: int, n: int)
    requires Shape(fs) && IsInode(fs, i)
  {
    forall bn :: 0 <= bn < MAXFILE && bn * BSIZE < n ==> Ref(fs, i, FileSlot(bn)) != 0
  }

  ghost predicate NoHoles(fs: Fs)
    requires Shape(fs)
  {
    forall i {:trigger MappedTo(fs, i, fs.inodes[i].size)} :: IsInode(fs, i) ==> MappedTo(fs, i, fs.inodes[i].size)
  }

  ghost function FirstBytes(fs: Fs, i: int, n: nat): (s: seq<int>)
    requires Shape(fs) && IsInode(fs, i) && n <= MAXFILE * BSIZE
    ensures |s| == n && forall x :: 0 <= x < n ==> s[x] == ByteAt(fs, i, x)
  {
    if n == 0 then [] else FirstBytes(fs, i, n - 1) + [ByteAt(fs, i, n - 1)]
  }

  /** A file is a sequence of bytes. */
  ghost function Contents(fs: Fs, i: int): (s: seq<int>)
    requires Shape(fs) && IsInode(fs, i)
    ensures |s| == fs.inodes[i].size
    ensures forall x :: 0 <= x < |s| ==> s[x] == ByteAt(fs, i, x)
  {
    FirstBytes(fs, i, fs.inodes[i].size)
  }

  /** d over s from off on; the result is longer if d ends beyond s. */
  function Overwrite(s: seq<int>, off: int, d: seq<int>): (r: seq<int>)
    requires 0 <= off <= |s|
  {
    s[..off] + d + (if off + |d| < |s| then s[off + |d|..] else [])
  }

  lemma WroteContents(fs: Fs, gs: Fs, i: int, off: int, d: seq<int>, j: int)
    requires Wrote(fs, gs, i, off, d) && IsInode(fs, i) && IsInode(fs, j) && 0 <= off <= fs.inodes[i].size
    requires gs.inodes[j].size == if j == i && off + |d| > fs.inodes[i].size then off + |d| else fs.inodes[j].size
    ensures Contents(gs, j) == if j == i then Overwrite(Contents(fs, i), off, d) else Contents(fs, j)
  {
    var c := Contents(gs, j);
    forall x | 0 <= x < |c|
      ensures c[x] == (if j == i then Overwrite(Contents(fs, i), off, d) else Contents(fs, j))[x]
    {
      assert c[x] == ByteAt(gs, j, x);
    }
  }
}
