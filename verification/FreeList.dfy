/** The free list of user/umalloc.c on values: an address-ordered ring of
    blocks that starts at the static header.  Addresses are in headers. */
module FreeList {
  const NULL := 0
  const BASE := 1   // &base, below the heap

  /** The node after the k-th of the ring. */
  function Next(l: seq<int>, k: int): (a: int)
    requires 0 <= k < |l|
  {
    if k + 1 < |l| then l[k + 1] else l[0]
  }

  predicate NodeOk(l: seq<int>, ptr: map<int, int>, size: map<int, int>, k: int)
    requires 0 <= k < |l|
  {
    && l[k] in ptr && ptr[l[k]] == Next(l, k) && l[k] in size
    && (if k == 0 then l[k] == BASE && size[l[k]] == 0 else size[l[k]] > 0)
    && (k + 1 < |l| ==> l[k] + size[l[k]] < l[k + 1])
  }

  /** One ring in address order, no two blocks overlapping or contiguous. */
  ghost predicate Ring(l: seq<int>, ptr: map<int, int>, size: map<int, int>) {
    l != [] && forall k {:trigger NodeOk(l, ptr, size, k)} :: 0 <= k < |l| ==> NodeOk(l, ptr, size, k)
  }

  predicate Rises(l: seq<int>, i: int) {
    0 <= i < |l| - 1 ==> l[i] < l[i + 1]
  }

  ghost predicate Increasing(l: seq<int>) {
    forall i {:trigger Rises(l, i)} :: Rises(l, i)
  }

  lemma {:induction false} Ordered(l: seq<int>, i: int, j: int)
    requires Increasing(l) && 0 <= i < j < |l|
    ensures l[i] < l[j]
    decreases j - i
  {
    assert Rises(l, j - 1);
    if i < j - 1 {
      Ordered(l, i, j - 1);
    }
  }

  lemma RingIncreasing(l: seq<int>, ptr: map<int, int>, size: map<int, int>)
    requires Ring(l, ptr, size)
    ensures Increasing(l)
  {
    forall i ensures Rises(l, i) {
      if 0 <= i < |l| - 1 {
        assert NodeOk(l, ptr, size, i);
      }
    }
  }

  /** The block [b, b + s) lies between the k-th node and the next. */
  predicate Between(l: seq<int>, size: map<int, int>, k: int, b: int, s: int)
    requires 0 <= k < |l| && l[k] in size
  {
    l[k] + size[l[k]] <= b && l[k] < b && 0 < s && (k + 1 < |l| ==> b + s <= l[k + 1])
  }

  /** A ring, except that the k-th block may touch the next. */
  ghost predicate RingBut(l: seq<int>, ptr: map<int, int>, size: map<int, int>, k: int) {
    && 0 <= k < |l| - 1 && l[k] in ptr && ptr[l[k]] == l[k + 1] && l[k] in size
    && (if k == 0 then l[k] == BASE && size[l[k]] == 0 else size[l[k]] > 0)
    && l[k] + size[l[k]] <= l[k + 1] && l[k] < l[k + 1]
    && forall i {:trigger NodeOk(l, ptr, size, i)} :: 0 <= i < |l| && i != k ==> NodeOk(l, ptr, size, i)
  }

  /** The right neighbour of b, if b touches it. */
  predicate Touches(l: seq<int>, k: int, b: int, s: int)
    requires 0 <= k < |l|
  {
    k + 1 < |l| && b + s == l[k + 1]
  }

  /** b after the k-th element. */
  function Insert(l: seq<int>, k: int, b: int): (m: seq<int>)
    requires 0 <= k < |l|
    ensures |m| == |l| + 1 && m[k + 1] == b
    ensures forall i {:trigger m[i]} :: 0 <= i <= k ==> m[i] == l[i]
    ensures forall i {:trigger m[i]} :: k + 1 < i < |m| ==> m[i] == l[i - 1]
  {
    l[..k + 1] + [b] + l[k + 1..]
  }

  /** Without the k-th element. */
  function Remove(l: seq<int>, k: int): (m: seq<int>)
    requires 0 <= k < |l|
    ensures |m| == |l| - 1
    ensures forall i {:trigger m[i]} :: 0 <= i < k ==> m[i] == l[i]
    ensures forall i {:trigger m[i]} :: k <= i < |m| ==> m[i] == l[i + 1]
  {
    l[..k] + l[k + 1..]
  }

  /** free puts b in the place of the block it touches, which it swallows. */
  lemma JoinRight(l: seq<int>, ptr: map<int, int>, size: map<int, int>, k: int, b: int, s: int)
    requires Ring(l, ptr, size) && 0 <= k < |l| && l[k] in size && Between(l, size, k, b, s) && b in size
    requires size[b] == s
    requires Touches(l, k, b, s)
    ensures l[k + 1] in ptr && l[k + 1] in size
    ensures RingBut(l[k + 1 := b], ptr[b := ptr[l[k + 1]]][l[k] := b], size[b := s + size[l[k + 1]]], k)
  {
    RingIncreasing(l, ptr, size);
    assert NodeOk(l, ptr, size, k) && NodeOk(l, ptr, size, k + 1);
    var m, ptr2, size2 := l[k + 1 := b], ptr[b := ptr[l[k + 1]]][l[k] := b], size[b := s + size[l[k + 1]]];
    forall i | 0 <= i < |m| && i != k ensures NodeOk(m, ptr2, size2, i) {
      assert NodeOk(l, ptr, size, i);
      Apart(l, k, b, s, i);
    }
  }

  /** free puts b after the k-th node. */
  lemma PutIn(l: seq<int>, ptr: map<int, int>, size: map<int, int>, k: int, b: int, s: int)
    requires Ring(l, ptr, size) && 0 <= k < |l| && l[k] in size && Between(l, size, k, b, s) && b in size
    requires size[b] == s
    requires !Touches(l, k, b, s)
    ensures RingBut(Insert(l, k, b), ptr[b := Next(l, k)][l[k] := b], size, k)
  {
    RingIncreasing(l, ptr, size);
    assert NodeOk(l, ptr, size, k);
    var m, ptr2 := Insert(l, k, b), ptr[b := Next(l, k)][l[k] := b];
    forall i | 0 <= i < |m| && i != k ensures NodeOk(m, ptr2, size, i) {
      PutInAt(l, ptr, size, k, b, s, i);
    }
  }

  lemma PutInAt(l: seq<int>, ptr: map<int, int>, size: map<int, int>, k: int, b: int, s: int, i: int)
    requires Ring(l, ptr, size) && Increasing(l) && 0 <= k < |l| && l[k] in size && Between(l, size, k, b, s)
    requires b in size && size[b] == s
    requires !Touches(l, k, b, s) && 0 <= i <= |l| && i != k
    ensures NodeOk(Insert(l, k, b), ptr[b := Next(l, k)][l[k] := b], size, i)
  {
    var m := Insert(l, k, b);
    if i < k {
      assert NodeOk(l, ptr, size, i) && m[i] == l[i] && m[i + 1] == l[i + 1];
      Apart(l, k, b, s, i);
    } else if i == k + 1 {
      assert m[i] == b && m[0] == l[0];
      assert i + 1 < |m| ==> m[i + 1] == l[k + 1];
    } else {
      assert NodeOk(l, ptr, size, i - 1) && m[i] == l[i - 1] && m[0] == l[0];
      assert i + 1 < |m| ==> m[i + 1] == l[i];
      Apart(l, k, b, s, i - 1);
    }
  }

  /** b is none of the nodes, and the k-th is none but the k-th. */
  lemma Apart(l: seq<int>, k: int, b: int, s: int, i: int)
    requires Increasing(l) && 0 <= k < |l| && l[k] < b && 0 < s && (k + 1 < |l| ==> b + s <= l[k + 1]) && 0 <= i < |l|
    ensures l[i] != b && (i != k ==> l[i] != l[k])
  {
    if i < k {
      Ordered(l, i, k);
    } else if k < i {
      Ordered(l, k, i);
      if k + 1 < i {
        Ordered(l, k + 1, i);
      }
    }
  }

  lemma ButIncreasing(l: seq<int>, ptr: map<int, int>, size: map<int, int>, k: int)
    requires RingBut(l, ptr, size, k)
    ensures Increasing(l)
  {
    forall i | 0 <= i < |l| - 1 ensures l[i] < l[i + 1] {
      assert i != k ==> NodeOk(l, ptr, size, i);
    }
  }

  /** The k-th block of the ring swallows the next, which it touches. */
  lemma JoinLeft(l: seq<int>, ptr: map<int, int>, size: map<int, int>, k: int)
    requires RingBut(l, ptr, size, k) && l[k] + size[l[k]] == l[k + 1]
    ensures l[k + 1] in ptr && l[k + 1] in size
    ensures Ring(Remove(l, k + 1), ptr[l[k] := ptr[l[k + 1]]], size[l[k] := size[l[k]] + size[l[k + 1]]])
  {
    ButIncreasing(l, ptr, size, k);
    assert NodeOk(l, ptr, size, k + 1);
    var m, ptr2, size2 := Remove(l, k + 1), ptr[l[k] := ptr[l[k + 1]]], size[l[k] := size[l[k]] + size[l[k + 1]]];
    forall i | 0 <= i < |m| ensures NodeOk(m, ptr2, size2, i) {
      JoinLeftAt(l, ptr, size, k, i);
    }
  }

  lemma JoinLeftAt(l: seq<int>, ptr: map<int, int>, size: map<int, int>, k: int, i: int)
    requires RingBut(l, ptr, size, k) && l[k] + size[l[k]] == l[k + 1] && Increasing(l) && 0 <= i < |l| - 1
    requires l[k + 1] in ptr && l[k + 1] in size && size[l[k + 1]] > 0 && k + 1 > 0
    ensures NodeOk(Remove(l, k + 1), ptr[l[k] := ptr[l[k + 1]]], size[l[k] := size[l[k]] + size[l[k + 1]]], i)
  {
    var m := Remove(l, k + 1);
    assert NodeOk(l, ptr, size, k + 1) && m[0] == l[0];
    if i < k {
      Ordered(l, i, k);
      assert NodeOk(l, ptr, size, i) && m[i] == l[i] && m[i + 1] == l[i + 1];
    } else if i == k {
      assert k > 0;
      assert m[i] == l[k] && (i + 1 < |m| ==> m[i + 1] == l[k + 2]);
    } else {
      Ordered(l, k, i + 1);
      assert NodeOk(l, ptr, size, i + 1) && m[i] == l[i + 1] && (i + 1 < |m| ==> m[i + 1] == l[i + 2]);
    }
  }

  lemma NotTouching(l: seq<int>, ptr: map<int, int>, size: map<int, int>, k: int)
    requires RingBut(l, ptr, size, k) && l[k] + size[l[k]] < l[k + 1]
    ensures Ring(l, ptr, size)
  {
    assert NodeOk(l, ptr, size, k);
  }

  /** malloc takes the whole j-th block off the ring. */
  lemma TakeOff(l: seq<int>, ptr: map<int, int>, size: map<int, int>, j: int)
    requires Ring(l, ptr, size) && 0 < j < |l|
    ensures Ring(Remove(l, j), ptr[l[j - 1] := Next(l, j)], size)
  {
    RingIncreasing(l, ptr, size);
    var m, ptr2 := Remove(l, j), ptr[l[j - 1] := Next(l, j)];
    forall i | 0 <= i < |m| ensures NodeOk(m, ptr2, size, i) {
      assert NodeOk(l, ptr, size, i) && NodeOk(l, ptr, size, i + 1) && m[0] == l[0];
      if i < j - 1 {
        Ordered(l, i, j - 1);
        assert m[i] == l[i] && m[i + 1] == l[i + 1];
      } else if i == j - 1 {
        assert m[i] == l[i] && (i + 1 < |m| ==> m[i + 1] == l[j + 1]);
      } else {
        Ordered(l, j - 1, i + 1);
        assert m[i] == l[i + 1] && (i + 1 < |m| ==> m[i + 1] == l[i + 2]);
      }
    }
  }

  /** malloc takes the last n headers of the j-th block. */
  lemma CutOff(l: seq<int>, ptr: map<int, int>, size: map<int, int>, j: int, n: int)
    requires Ring(l, ptr, size) && 0 < j < |l| && 0 < n && l[j] in size && n < size[l[j]]
    ensures Ring(l, ptr, size[l[j] := size[l[j]] - n][l[j] + size[l[j]] - n := n])
  {
    RingIncreasing(l, ptr, size);
    var q := l[j] + size[l[j]] - n;
    var size2 := size[l[j] := size[l[j]] - n][q := n];
    forall i | 0 <= i < |l| ensures NodeOk(l, ptr, size2, i) {
      assert NodeOk(l, ptr, size, i) && NodeOk(l, ptr, size, j);
      if i < j {
        Ordered(l, i, j);
      } else if i > j {
        Ordered(l, j, i);
        if i > j + 1 {
          Ordered(l, j + 1, i);
        }
      }
    }
  }

  // ---- the memory behind the blocks

  predicate InBlock(a: int, s: int, u: int) {
    a <= u < a + s
  }

  predicate InNode(l: seq<int>, size: map<int, int>, k: int, u: int) {
    0 < k < |l| && l[k] in size && InBlock(l[k], size[l[k]], u)
  }

  /** Unit u is in a free block. */
  ghost predicate IsFree(l: seq<int>, size: map<int, int>, u: int) {
    exists k :: InNode(l, size, k, u)
  }

  lemma JoinRightUnits(l: seq<int>, ptr: map<int, int>, size: map<int, int>, k: int, b: int, s: int, u: int)
    requires Ring(l, ptr, size) && 0 <= k < |l| && l[k] in size && Between(l, size, k, b, s)
    requires Touches(l, k, b, s) && l[k + 1] in size
    ensures IsFree(l[k + 1 := b], size[b := s + size[l[k + 1]]], u) <==> IsFree(l, size, u) || InBlock(b, s, u)
  {
    RingIncreasing(l, ptr, size);
    assert NodeOk(l, ptr, size, k + 1);
    var m, size2 := l[k + 1 := b], size[b := s + size[l[k + 1]]];
    if i :| InNode(m, size2, i, u) {
      Apart(l, k, b, s, i);
      assert InNode(l, size, i, u) || InBlock(b, s, u);
    }
    if i :| InNode(l, size, i, u) {
      Apart(l, k, b, s, i);
      assert InNode(m, size2, i, u);
    }
    if InBlock(b, s, u) {
      assert InNode(m, size2, k + 1, u);
    }
  }

  lemma PutInUnits(l: seq<int>, size: map<int, int>, k: int, b: int, s: int, u: int)
    requires 0 <= k < |l| && b in size && size[b] == s
    ensures IsFree(Insert(l, k, b), size, u) <==> IsFree(l, size, u) || InBlock(b, s, u)
  {
    var m := Insert(l, k, b);
    if i :| InNode(m, size, i, u) {
      assert InNode(l, size, i, u) || InNode(l, size, i - 1, u) || InBlock(b, s, u);
    }
    if i :| InNode(l, size, i, u) {
      assert InNode(m, size, i, u) || InNode(m, size, i + 1, u);
    }
    if InBlock(b, s, u) {
      assert InNode(m, size, k + 1, u);
    }
  }

  lemma JoinLeftUnits(l: seq<int>, ptr: map<int, int>, size: map<int, int>, k: int, u: int)
    requires RingBut(l, ptr, size, k) && l[k] + size[l[k]] == l[k + 1] && l[k + 1] in size
    ensures IsFree(Remove(l, k + 1), size[l[k] := size[l[k]] + size[l[k + 1]]], u) <==> IsFree(l, size, u)
  {
    ButIncreasing(l, ptr, size, k);
    assert NodeOk(l, ptr, size, k + 1);
    var m, size2 := Remove(l, k + 1), size[l[k] := size[l[k]] + size[l[k + 1]]];
    assert m[k] == l[k] && k > 0;
    if i :| InNode(m, size2, i, u) {
      if i < k {
        Ordered(l, i, k);
        assert InNode(l, size, i, u);
      } else if i == k {
        assert InNode(l, size, k, u) || InNode(l, size, k + 1, u);
      } else {
        Ordered(l, k, i + 1);
        assert InNode(l, size, i + 1, u);
      }
    }
    if i :| InNode(l, size, i, u) {
      if i < k {
        Ordered(l, i, k);
        assert InNode(m, size2, i, u);
      } else if i <= k + 1 {
        assert InNode(m, size2, k, u);
      } else {
        Ordered(l, k, i);
        assert m[i - 1] == l[i];
        assert InNode(m, size2, i - 1, u);
      }
    }
  }

  lemma NodesApart(l: seq<int>, ptr: map<int, int>, size: map<int, int>, i: int, j: int, u: int)
    requires Ring(l, ptr, size) && InNode(l, size, i, u) && InNode(l, size, j, u)
    ensures i == j
  {
    RingIncreasing(l, ptr, size);
    assert NodeOk(l, ptr, size, i) && NodeOk(l, ptr, size, j);
    if i < j {
      if i + 1 < j {
        Ordered(l, i + 1, j);
      }
    } else if j < i {
      if j + 1 < i {
        Ordered(l, j + 1, i);
      }
    }
  }

  lemma TakeOffUnits(l: seq<int>, ptr: map<int, int>, size: map<int, int>, j: int, u: int)
    requires Ring(l, ptr, size) && 0 < j < |l| && l[j] in size
    ensures IsFree(Remove(l, j), size, u) <==> IsFree(l, size, u) && !InBlock(l[j], size[l[j]], u)
  {
    var m := Remove(l, j);
    if i :| InNode(m, size, i, u) {
      var h := if i < j then i else i + 1;
      assert InNode(l, size, h, u);
      if InBlock(l[j], size[l[j]], u) {
        assert InNode(l, size, j, u);
        NodesApart(l, ptr, size, h, j, u);
      }
    }
    if IsFree(l, size, u) && !InBlock(l[j], size[l[j]], u) {
      var i :| InNode(l, size, i, u);
      var h := if i < j then i else i - 1;
      assert m[h] == l[i];
      assert InNode(m, size, h, u);
    }
  }

  /** Only the j-th block gets smaller. */
  lemma CutOffSize(l: seq<int>, ptr: map<int, int>, size: map<int, int>, j: int, n: int, i: int)
    requires Ring(l, ptr, size) && 0 < j < |l| && l[j] in size && 0 < n < size[l[j]] && 0 < i < |l|
    ensures var size2 := size[l[j] := size[l[j]] - n][l[j] + size[l[j]] - n := n];
      l[i] in size && l[i] in size2 && size2[l[i]] == size[l[i]] - if i == j then n else 0
  {
    RingIncreasing(l, ptr, size);
    assert NodeOk(l, ptr, size, i) && NodeOk(l, ptr, size, j);
    if i < j {
      Ordered(l, i, j);
    } else if i > j {
      Ordered(l, j, i);
      if j + 1 < i {
        Ordered(l, j + 1, i);
      }
    }
  }

  lemma CutOffUnits(l: seq<int>, ptr: map<int, int>, size: map<int, int>, j: int, n: int, u: int)
    requires Ring(l, ptr, size) && 0 < j < |l| && l[j] in size && 0 < n < size[l[j]]
    ensures var q := l[j] + size[l[j]] - n;
      IsFree(l, size[l[j] := size[l[j]] - n][q := n], u) <==> IsFree(l, size, u) && !InBlock(q, n, u)
  {
    var q := l[j] + size[l[j]] - n;
    var size2 := size[l[j] := size[l[j]] - n][q := n];
    if i :| InNode(l, size2, i, u) {
      CutOffSize(l, ptr, size, j, n, i);
      assert InNode(l, size, i, u);
      if InBlock(q, n, u) && i != j {
        NodesApart(l, ptr, size, i, j, u);
      }
    }
    if IsFree(l, size, u) && !InBlock(q, n, u) {
      var i :| InNode(l, size, i, u);
      CutOffSize(l, ptr, size, j, n, i);
      assert InNode(l, size2, i, u);
    }
  }
}
