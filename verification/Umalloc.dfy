/** malloc and free of user/umalloc.c (the allocator of section 8.7 of The C
    Programming Language, second edition), in place on headers.  An address
    counts headers of HEADER bytes; ptr and size are the two header fields. */
module Umalloc {
  import opened FreeList

  const HEADER := 16      // sizeof(Header)
  const NALLOC := 4096    // the fewest headers to ask sbrk for

  /** The last node below b. */
  function Pred(l: seq<int>, b: int): (k: int)
    requires l != [] && l[0] < b
    ensures 0 <= k < |l| && l[k] < b && (k + 1 < |l| ==> b <= l[k + 1])
  {
    if |l| > 1 && l[|l| - 1] >= b then Pred(l[..|l| - 1], b) else |l| - 1
  }

  /** Steps along the ring from the i-th to the k-th of n nodes. */
  function Distance(i: int, k: int, n: int): (d: int)
    requires 0 <= i < n && 0 <= k < n
    ensures 0 <= d < n
  {
    if i <= k then k - i else k - i + n
  }

  ghost predicate IsLive(live: map<int, int>, u: int) {
    exists a :: a in live && InBlock(a, live[a], u)
  }

  predicate LiveOk(size: map<int, int>, live: map<int, int>, a: int)
    requires a in live
  {
    a > BASE && live[a] > 0 && a in size && size[a] == live[a]
  }

  predicate LiveApart(live: map<int, int>, a: int, b: int)
    requires a in live && b in live
  {
    a == b || a + live[a] <= b || b + live[b] <= a
  }

  predicate UnitOk(free: bool, used: bool, got: bool, u: int, top: int) {
    (got <==> free || used) && !(free && used) && (got ==> BASE < u < top)
  }

  /** Every unit that sbrk gave out is in exactly one block, free or live. */
  ghost predicate Account(l: seq<int>, size: map<int, int>, live: map<int, int>, got: iset<int>, top: int) {
    && (forall a {:trigger LiveOk(size, live, a)} :: a in live ==> LiveOk(size, live, a))
    && (forall a, b {:trigger LiveApart(live, a, b)} :: a in live && b in live ==> LiveApart(live, a, b))
    && (forall u {:trigger u in got} {:trigger IsFree(l, size, u)} {:trigger IsLive(live, u)} ::
          UnitOk(IsFree(l, size, u), IsLive(live, u), u in got, u, top))
  }

  lemma Exclusive(l: seq<int>, size: map<int, int>, live: map<int, int>, got: iset<int>, top: int, u: int)
    requires Account(l, size, live, got, top)
    ensures !(IsFree(l, size, u) && IsLive(live, u))
  {
    assert UnitOk(IsFree(l, size, u), IsLive(live, u), u in got, u, top);
  }

  /** A live block lies between two neighbours on the ring. */
  lemma LiveBetween(l: seq<int>, ptr: map<int, int>, size: map<int, int>, live: map<int, int>, got: iset<int>, top: int,
                    b: int)
    requires Ring(l, ptr, size) && Account(l, size, live, got, top) && b in live
    ensures l != [] && l[0] < b && l[Pred(l, b)] in size && Between(l, size, Pred(l, b), b, live[b])
    ensures Increasing(l) && b !in l
  {
    assert NodeOk(l, ptr, size, 0) && LiveOk(size, live, b);
    var k := Pred(l, b);
    assert NodeOk(l, ptr, size, k);
    assert InBlock(b, live[b], b);
    assert l[k] + size[l[k]] > b ==> InNode(l, size, k, b);
    Exclusive(l, size, live, got, top, b);
    if k + 1 < |l| {
      var c, s := l[k + 1], live[b];
      assert NodeOk(l, ptr, size, k + 1) && InNode(l, size, k + 1, c);
      assert b + s > c ==> InBlock(b, s, c);
      Exclusive(l, size, live, got, top, c);
    }
    RingIncreasing(l, ptr, size);
    forall i | 0 <= i < |l| ensures l[i] != b {
      Apart(l, k, b, live[b], i);
    }
  }

  /** Some free block has at least n headers. */
  ghost predicate Big(l: seq<int>, size: map<int, int>, n: int) {
    exists k :: 0 < k < |l| && l[k] in size && size[l[k]] >= n
  }

  lemma LiveMinus(size: map<int, int>, live: map<int, int>, b: int, u: int)
    requires b in live && (forall a :: a in live ==> LiveOk(size, live, a))
    requires (forall a, b :: a in live && b in live ==> LiveApart(live, a, b))
    ensures IsLive(live - {b}, u) <==> IsLive(live, u) && !InBlock(b, live[b], u)
  {
    if a :| a in live - {b} && InBlock(a, (live - {b})[a], u) {
      assert LiveApart(live, a, b) && a in live;
    }
    if IsLive(live, u) && !InBlock(b, live[b], u) {
      var a :| a in live && InBlock(a, live[a], u);
      assert a in live - {b};
    }
  }

  lemma FreeAccount(l: seq<int>, size: map<int, int>, live: map<int, int>, got: iset<int>, top: int, b: int,
                    l2: seq<int>, size2: map<int, int>)
    requires Account(l, size, live, got, top) && b in live
    requires forall u :: IsFree(l2, size2, u) <==> IsFree(l, size, u) || InBlock(b, live[b], u)
    requires forall a :: a in live && a != b ==> LiveOk(size, live, a) && a in size2 && size2[a] == size[a]
    ensures Account(l2, size2, live - {b}, got, top)
  {
    var rest := live - {b};
    forall a | a in rest ensures LiveOk(size2, rest, a) {
      assert LiveOk(size, live, a);
    }
    forall a, c | a in rest && c in rest ensures LiveApart(rest, a, c) {
      assert LiveApart(live, a, c);
    }
    forall u ensures UnitOk(IsFree(l2, size2, u), IsLive(rest, u), u in got, u, top) {
      LiveMinus(size, live, b, u);
      assert UnitOk(IsFree(l, size, u), IsLive(live, u), u in got, u, top);
      assert InBlock(b, live[b], u) ==> IsLive(live, u);
    }
  }

  function More(nu: int): (n: int) {
    if nu < NALLOC then NALLOC else nu
  }

  ghost function Units(a: int, n: int): (s: iset<int>) {
    iset u | InBlock(a, n, u)
  }

  /** What sbrk gives is like one more live block. */
  lemma NewBlock(l: seq<int>, ptr: map<int, int>, size: map<int, int>, live: map<int, int>, got: iset<int>, top: int,
                 a: int, n: int)
    requires Ring(l, ptr, size) && Account(l, size, live, got, top) && BASE < top <= a && 0 < n
    ensures Ring(l, ptr, size[a := n]) && a !in live && Account(l, size[a := n], live[a := n], got + Units(a, n), a + n)
  {
    var size2, live2 := size[a := n], live[a := n];
    forall k | 0 <= k < |l| ensures l[k] != a && NodeOk(l, ptr, size2, k) {
      assert NodeOk(l, ptr, size, k);
      assert k > 0 ==> InNode(l, size, k, l[k]);
      assert UnitOk(IsFree(l, size, l[k]), IsLive(live, l[k]), l[k] in got, l[k], top);
    }
    forall c | c in live ensures c + live[c] <= a && LiveOk(size, live, c) {
      assert LiveOk(size, live, c);
      var u := c + live[c] - 1;
      assert InBlock(c, live[c], u);
      assert UnitOk(IsFree(l, size, u), IsLive(live, u), u in got, u, top);
    }
    forall u ensures UnitOk(IsFree(l, size2, u), IsLive(live2, u), u in got + Units(a, n), u, a + n) {
      assert UnitOk(IsFree(l, size, u), IsLive(live, u), u in got, u, top);
      NewBlockUnit(l, size, live, a, n, u);
    }
    forall c, d | c in live2 && d in live2 ensures LiveApart(live2, c, d) {
      assert c in live && d in live ==> LiveApart(live, c, d);
    }
  }

  lemma NewBlockUnit(l: seq<int>, size: map<int, int>, live: map<int, int>, a: int, n: int, u: int)
    requires a !in live && forall k :: 0 <= k < |l| ==> l[k] != a
    ensures IsFree(l, size[a := n], u) <==> IsFree(l, size, u)
    ensures IsLive(live[a := n], u) <==> IsLive(live, u) || InBlock(a, n, u)
  {
    var size2 := size[a := n];
    if k :| InNode(l, size2, k, u) {
      assert InNode(l, size, k, u);
    }
    if k :| InNode(l, size, k, u) {
      assert InNode(l, size2, k, u);
    }
    NewLive(live, a, n, u);
  }

  lemma TakeAccount(l: seq<int>, ptr: map<int, int>, size: map<int, int>, live: map<int, int>, got: iset<int>, top: int,
                    j: int, a: int, n: int, l2: seq<int>, size2: map<int, int>)
    requires Ring(l, ptr, size) && Account(l, size, live, got, top) && 0 < j < |l| && l[j] in size
    requires 0 < n && l[j] <= a && a + n == l[j] + size[l[j]] && a in size2 && size2[a] == n
    requires forall u :: IsFree(l2, size2, u) <==> IsFree(l, size, u) && !InBlock(a, n, u)
    requires forall c :: c in size && c != a && c != l[j] ==> c in size2 && size2[c] == size[c]
    ensures a !in live && Account(l2, size2, live[a := n], got, top)
  {
    var live2 := live[a := n];
    AboveBase(l, ptr, size, j);
    assert forall u :: InBlock(a, n, u) ==> InNode(l, size, j, u);
    assert InBlock(a, n, a);
    Exclusive(l, size, live, got, top, a);
    forall c | c in live ensures LiveApart(map[a := n, c := live[c]], a, c) && c != a && LiveOk(size2, live, c) {
      TakeApart(l, size, live, got, top, j, a, n, c);
    }
    forall u ensures UnitOk(IsFree(l2, size2, u), IsLive(live2, u), u in got, u, top) {
      assert UnitOk(IsFree(l, size, u), IsLive(live, u), u in got, u, top);
      NewLive(live, a, n, u);
      assert InBlock(a, n, u) ==> IsFree(l, size, u);
    }
    forall c, d | c in live2 && d in live2 ensures LiveApart(live2, c, d) {
      assert c in live && d in live ==> LiveApart(live, c, d);
    }
  }

  lemma NewLive(live: map<int, int>, a: int, n: int, u: int)
    requires a !in live
    ensures IsLive(live[a := n], u) <==> IsLive(live, u) || InBlock(a, n, u)
  {
    if c :| c in live && InBlock(c, live[c], u) {
      assert c in live[a := n] && InBlock(c, live[a := n][c], u);
    }
    if InBlock(a, n, u) {
      assert a in live[a := n];
    }
  }

  /** A live block is apart from what malloc takes. */
  lemma TakeApart(l: seq<int>, size: map<int, int>, live: map<int, int>, got: iset<int>, top: int, j: int, a: int,
                  n: int, c: int)
    requires Account(l, size, live, got, top) && 0 < j < |l| && l[j] in size && c in live
    requires 0 < n && l[j] <= a && a + n == l[j] + size[l[j]]
    ensures LiveOk(size, live, c) && c != l[j] && (a + n <= c || c + live[c] <= a)
  {
    assert LiveOk(size, live, c);
    var s := live[c];
    assert InBlock(c, s, c) && (c <= l[j] < c + s ==> InBlock(c, s, l[j])) && (c <= a < c + s ==> InBlock(c, s, a));
    assert InNode(l, size, j, l[j]) && InNode(l, size, j, a) && (l[j] <= c < a + n ==> InNode(l, size, j, c));
    Exclusive(l, size, live, got, top, c);
    Exclusive(l, size, live, got, top, l[j]);
    Exclusive(l, size, live, got, top, a);
  }

  /** nunits of malloc: a header and room for nbytes. */
  function Headers(nbytes: int): (n: int)
    requires 0 <= nbytes
    ensures n >= 1 && (n - 1) * HEADER >= nbytes && (n - 2) * HEADER < nbytes
  {
    (nbytes + HEADER - 1) / HEADER + 1
  }

  /** The q-th node after the f-th on a ring of n. */
  function Around(f: int, q: int, n: int): (j: int)
    requires 0 <= f < n && 0 <= q <= n
    ensures 0 <= j < n
  {
    if f + q < n then f + q else f + q - n
  }

  predicate Small(l: seq<int>, size: map<int, int>, k: int, n: int) {
    0 <= k < |l| && (l[k] in size ==> size[l[k]] < n)
  }

  lemma AllSmall(l: seq<int>, size: map<int, int>, f: int, n: int)
    requires 0 <= f < |l| && forall q :: 0 < q <= |l| ==> Small(l, size, Around(f, q, |l|), n)
    ensures !Big(l, size, n)
  {
    forall k | 0 < k < |l| && l[k] in size ensures size[l[k]] < n {
      var q := if k > f then k - f else k - f + |l|;
      assert Small(l, size, Around(f, q, |l|), n);
    }
  }

  lemma SameNode(l: seq<int>, ptr: map<int, int>, size: map<int, int>, i: int, j: int)
    requires Ring(l, ptr, size) && 0 <= i < |l| && 0 <= j < |l| && l[i] == l[j]
    ensures i == j
  {
    RingIncreasing(l, ptr, size);
    if i < j {
      Ordered(l, i, j);
    } else if j < i {
      Ordered(l, j, i);
    }
  }

  class Heap {
    var ptr: map<int, int>
    var size: map<int, int>
    var freep: int
    ghost var l: seq<int>
    ghost var live: map<int, int>
    ghost var got: iset<int>
    ghost var top: int

    ghost predicate Ready()
      reads this
    {
      && Ring(l, ptr, size) && freep in l && freep in ptr && freep != NULL && BASE < top
      && Account(l, size, live, got, top)
    }

    ghost predicate Valid()
      reads this
    {
      if freep == NULL then live == map[] && got == iset{} && BASE < top else Ready()
    }

    constructor (bottom: int)
      requires BASE < bottom
      ensures Valid() && live == map[] && got == iset{} && top == bottom
    {
      ptr, size, freep, l, live, got, top := map[], map[], NULL, [], map[], iset{}, bottom;
    }

    /** free's search: the node below b. */
    method Search(b: int) returns (p: int)
      requires Ready() && b in live
      ensures l != [] && l[0] < b && p == l[Pred(l, b)] && p != NULL
    {
      LiveBetween(l, ptr, size, live, got, top, b);
      ghost var k := Pred(l, b);
      ghost var i :| 0 <= i < |l| && l[i] == freep;
      p := freep;
      assert NodeOk(l, ptr, size, i);
      while !(b > p && b < ptr[p])
        invariant 0 <= i < |l| && p == l[i] && NodeOk(l, ptr, size, i)
        decreases Distance(i, k, |l|)
      {
        SearchStep(l, ptr, size, b, i);
        if p >= ptr[p] && (b > p || b < ptr[p]) {
          break;
        }
        NextNode(l, ptr, size, i);
        p := ptr[p];
        i := if i + 1 < |l| then i + 1 else 0;
      }
      SearchStep(l, ptr, size, b, i);
      AboveBase(l, ptr, size, i);
    }

    /** free's first join: b and the node after p, the k-th. */
    method JoinNext(b: int, p: int, ghost k: int) returns (ghost m: seq<int>)
      requires Ring(l, ptr, size) && 0 <= k < |l| && p == l[k] && l[k] in size && b in size
      requires Between(l, size, k, b, size[b]) && BASE < b
      modifies this`ptr, this`size
      ensures RingBut(m, ptr[p := b], size, k) && m[k] == p && m[k + 1] == b
      ensures forall u :: IsFree(m, size, u) <==> old(IsFree(l, size, u)) || old(InBlock(b, size[b], u))
      ensures size.Keys == old(size).Keys && size[b] >= old(size[b])
      ensures forall a :: a in size && a != b ==> size[a] == old(size)[a]
      ensures b in ptr && p in ptr
    {
      ghost var s := size[b];
      assert NodeOk(l, ptr, size, k) && NodeOk(l, ptr, size, 0);
      var nx := ptr[p];
      if b + size[b] == nx {
        assert NodeOk(l, ptr, size, k + 1);
        JoinRight(l, ptr, size, k, b, s);
        forall u
          ensures IsFree(l[k + 1 := b], size[b := s + size[l[k + 1]]], u) <==> IsFree(l, size, u) || InBlock(b, s, u)
        {
          JoinRightUnits(l, ptr, size, k, b, s, u);
        }
        m := l[k + 1 := b];
        size := size[b := size[b] + size[nx]];
        ptr := ptr[b := ptr[nx]];
      } else {
        PutIn(l, ptr, size, k, b, s);
        forall u ensures IsFree(Insert(l, k, b), size, u) <==> IsFree(l, size, u) || InBlock(b, s, u) {
          PutInUnits(l, size, k, b, s, u);
        }
        m := Insert(l, k, b);
        ptr := ptr[b := nx];
      }
    }

    /** free's second join: p, the k-th node of m, and b. */
    method JoinPrev(b: int, p: int, ghost k: int, ghost m: seq<int>)
      requires p in ptr && p in size && b in ptr && b in size && RingBut(m, ptr[p := b], size, k) && m[k] == p
      requires m[k + 1] == b
      modifies this`ptr, this`size, this`l
      ensures Ring(l, ptr, size) && p in l && p in ptr && Big(l, size, old(size[b]))
      ensures forall u :: IsFree(l, size, u) <==> old(IsFree(m, size, u))
      ensures size.Keys == old(size).Keys && forall a :: a in size && a != p ==> size[a] == old(size)[a]
    {
      ghost var ptr1, size1 := ptr[p := b], size;
      if p + size[p] == b {
        JoinLeft(m, ptr1, size, k);
        forall u ensures IsFree(Remove(m, k + 1), size1[p := size1[p] + size1[b]], u) <==> IsFree(m, size1, u) {
          JoinLeftUnits(m, ptr1, size1, k, u);
        }
        assert p != b;
        assert ptr1[p := ptr1[b]] == ptr[p := ptr[b]];
        size := size[p := size[p] + size[b]];
        ptr := ptr[p := ptr[b]];
        l := Remove(m, k + 1);
        assert l[k] == p;
      } else {
        NotTouching(m, ptr1, size, k);
        ptr := ptr[p := b];
        l := m;
        assert l[k + 1] == b;
      }
    }

    method Free(ap: int)
      requires Ready() && ap - 1 in live
      modifies this
      ensures Ready() && live == old(live) - {ap - 1} && got == old(got) && top == old(top)
      ensures Big(l, size, old(live)[ap - 1])
    {
      var b := ap - 1;
      LiveBetween(l, ptr, size, live, got, top, b);
      ghost var k, s, l0, size0 := Pred(l, b), live[b], l, size;
      assert LiveOk(size, live, b) && NodeOk(l, ptr, size, k);
      var p := Search(b);
      ghost var m := JoinNext(b, p, k);
      JoinPrev(b, p, k, m);
      freep := p;
      forall a | a in live && a != b ensures a in size && size[a] == size0[a] {
        assert LiveOk(size0, live, a);
        LiveBetween(l0, old(ptr), size0, live, got, top, a);
      }
      FreeAccount(l0, size0, live, got, top, b, l, size);
      live := live - {b};
    }

    /** morecore: sbrk gives nu or more headers at grant, or fails (grant == NULL). */
    method Morecore(nu: int, grant: int) returns (r: int)
      requires Ready() && 0 < nu && (grant == NULL || grant >= top)
      modifies this
      ensures Ready() && live == old(live) && (r == NULL <==> grant == NULL) && (r != NULL ==> r == freep)
      ensures r == NULL ==> l == old(l) && ptr == old(ptr) && size == old(size) && freep == old(freep)
      ensures r == NULL ==> got == old(got) && top == old(top)
      ensures r != NULL ==> Big(l, size, nu) && got == old(got) + Units(grant, More(nu)) && top == grant + More(nu)
    {
      var n := if nu < NALLOC then NALLOC else nu;
      if grant == NULL {
        return NULL;
      }
      ghost var size0 := size;
      NewBlock(l, ptr, size, live, got, top, grant, n);
      size := size[grant := n];
      live, got, top := live[grant := n], got + Units(grant, n), grant + n;
      Free(grant + 1);
      assert live == old(live);
      return freep;
    }

    /** Takes n headers from the j-th block, which has enough; prevp is the node before. */
    method Take(p: int, prevp: int, n: int, ghost j: int) returns (a: int)
      requires Ready() && 0 < j < |l| && p == l[j] && prevp == l[j - 1] && 0 < n && p in size && size[p] >= n
      modifies this
      ensures Ready() && a !in old(live) && live == old(live)[a := n] && got == old(got) && top == old(top)
    {
      ghost var l0, ptr0, size0 := l, ptr, size;
      assert NodeOk(l, ptr, size, j) && NodeOk(l, ptr, size, j - 1);
      AboveBase(l, ptr, size, j - 1);
      if size[p] == n {
        a := p;
        TakeOff(l, ptr, size, j);
        forall u ensures IsFree(Remove(l0, j), size0, u) <==> IsFree(l0, size0, u) && !InBlock(a, n, u) {
          TakeOffUnits(l0, ptr0, size0, j, u);
        }
        ptr := ptr[prevp := ptr[p]];
        l := Remove(l, j);
        assert l[j - 1] == prevp;
      } else {
        a := p + size[p] - n;
        CutOff(l, ptr, size, j, n);
        forall u
          ensures IsFree(l0, size0[p := size0[p] - n][a := n], u) <==> IsFree(l0, size0, u) && !InBlock(a, n, u)
        {
          CutOffUnits(l0, ptr0, size0, j, n, u);
        }
        size := size[p := size[p] - n];
        size := size[p + size[p] := n];
      }
      freep := prevp;
      TakeAccount(l0, ptr0, size0, live, got, top, j, a, n, l, size);
      live := live[a := n];
    }

    /** malloc's search, once around the ring from freep: the first block of at
        least n headers, the j-th node, and the node before it. */
    method Scan(n: int) returns (found: bool, p: int, prevp: int, ghost j: int)
      requires Ready() && 0 < n
      ensures found ==> 0 < j < |l| && p == l[j] && prevp == l[j - 1] && p in size && size[p] >= n
      ensures !found ==> !Big(l, size, n)
    {
      ghost var f :| 0 <= f < |l| && l[f] == freep;
      ghost var r := 0;
      prevp := freep;
      j := f;
      assert NodeOk(l, ptr, size, f);
      while true
        invariant 0 <= r < |l| && j == Around(f, r, |l|) && prevp == l[j] && NodeOk(l, ptr, size, j)
        invariant forall q :: 0 < q <= r ==> Small(l, size, Around(f, q, |l|), n)
        decreases |l| - r
      {
        p := ptr[prevp];
        r := r + 1;
        j := Around(f, r, |l|);
        assert NodeOk(l, ptr, size, j) && p == l[j];
        if size[p] >= n {
          return true, p, prevp, j;
        }
        if p == freep {
          SameNode(l, ptr, size, j, f);
          AllSmall(l, size, f, n);
          return false, p, prevp, j;
        }
        prevp := p;
      }
    }

    /** malloc, where sbrk would give memory at grant; NULL if it fails and no free block will do. */
    method Malloc(nbytes: int, grant: int) returns (ap: int)
      requires Valid() && 0 <= nbytes && (grant == NULL || grant >= top)
      modifies this
      ensures Ready()
      ensures ap == NULL ==> grant == NULL && live == old(live) && got == old(got) && !Big(l, size, Headers(nbytes))
      ensures ap != NULL ==> ap - 1 !in old(live) && live == old(live)[ap - 1 := Headers(nbytes)]
      ensures got == old(got) || (grant != NULL && got == old(got) + Units(grant, More(Headers(nbytes))))
      ensures old(freep) != NULL && old(Big(l, size, Headers(nbytes))) ==> ap != NULL && got == old(got)
    {
      var n := Headers(nbytes);
      if freep == NULL {
        ptr, size, freep := map[BASE := BASE], map[BASE := 0], BASE;
        l := [BASE];
      }
      var found, p, prevp;
      ghost var j;
      found, p, prevp, j := Scan(n);
      if !found {
        var r := Morecore(n, grant);
        if r == NULL {
          return NULL;
        }
        found, p, prevp, j := Scan(n);
      }
      var a := Take(p, prevp, n, j);
      assert LiveOk(size, live, a);
      return a + 1;
    }
  }

  lemma AboveBase(l: seq<int>, ptr: map<int, int>, size: map<int, int>, i: int)
    requires Ring(l, ptr, size) && 0 <= i < |l|
    ensures l[i] >= BASE && (l[i] == BASE <==> i == 0)
  {
    RingIncreasing(l, ptr, size);
    assert NodeOk(l, ptr, size, 0);
    if i > 0 {
      Ordered(l, 0, i);
    }
  }

  /** p->s.ptr is the next node of the ring. */
  lemma NextNode(l: seq<int>, ptr: map<int, int>, size: map<int, int>, i: int)
    requires Ring(l, ptr, size) && 0 <= i < |l|
    ensures var k := if i + 1 < |l| then i + 1 else 0;
      l[i] in ptr && ptr[l[i]] == l[k] && NodeOk(l, ptr, size, k)
  {
    assert NodeOk(l, ptr, size, i);
    assert NodeOk(l, ptr, size, if i + 1 < |l| then i + 1 else 0);
  }

  /** The tests in free's loop tell whether p is the last node below b. */
  lemma SearchStep(l: seq<int>, ptr: map<int, int>, size: map<int, int>, b: int, i: int)
    requires Ring(l, ptr, size) && Increasing(l) && 0 <= i < |l| && l[0] < b && b !in l
    ensures var p, k := l[i], Pred(l, b);
      p in ptr && (i == k <==> (b > p && b < ptr[p]) || (p >= ptr[p] && (b > p || b < ptr[p])))
  {
    assert NodeOk(l, ptr, size, i);
    var k := Pred(l, b);
    if i < k {
      Ordered(l, i, k);
      if i + 1 < k {
        Ordered(l, i + 1, k);
      }
    } else if k < i {
      if k + 1 < i {
        Ordered(l, k + 1, i);
      }
      if i > 0 && i + 1 == |l| {
        Ordered(l, 0, i);
      }
    } else if i > 0 && i + 1 == |l| {
      Ordered(l, 0, i);
    }
  }
}
