/** Facts about finite sets and lists that several modules need. */
module Sets {
  lemma NonEmpty(s: set<int>)
    requires s != {}
    ensures exists x :: x in s
  {
    if forall x: int :: x !in s {
      assert false;
    }
  }

  lemma SubsetSize(a: set<int>, b: set<int>)
    requires a <= b
    ensures |a| <= |b|
  {
    assert b == a + (b - a);
  }

  /** No element occurs twice. */
  predicate Distinct(l: seq<int>) {
    l == [] || (l[|l| - 1] !in l[..|l| - 1] && Distinct(l[..|l| - 1]))
  }

  lemma {:induction false} DistinctPairs(l: seq<int>)
    requires Distinct(l)
    ensures forall i, j :: 0 <= i < j < |l| ==> l[i] != l[j]
  {
    if l != [] {
      DistinctPairs(l[..|l| - 1]);
      forall i, j | 0 <= i < j < |l| ensures l[i] != l[j] {
        assert l[i] == l[..|l| - 1][i];
        if j < |l| - 1 {
          assert l[j] == l[..|l| - 1][j];
        }
      }
    }
  }

  lemma {:induction false} DistinctIf(l: seq<int>)
    requires forall i, j :: 0 <= i < j < |l| ==> l[i] != l[j]
    ensures Distinct(l)
  {
    if l != [] {
      DistinctIf(l[..|l| - 1]);
    }
  }

  lemma DistinctAppend(l: seq<int>, x: int)
    requires Distinct(l) && x !in l
    ensures Distinct(l + [x])
  {
    assert (l + [x])[..|l|] == l;
  }

  lemma DistinctTail(l: seq<int>)
    requires Distinct(l) && l != []
    ensures l[0] !in l[1..] && Distinct(l[1..])
  {
    DistinctPairs(l);
    DistinctIf(l[1..]);
  }

  lemma DistinctPrepend(x: int, l: seq<int>)
    requires Distinct(l) && x !in l
    ensures Distinct([x] + l)
  {
    DistinctPairs(l);
    DistinctIf([x] + l);
  }

  lemma DistinctCut(l: seq<int>, k: nat)
    requires Distinct(l) && k < |l|
    ensures Distinct(l[..k] + l[k + 1..])
  {
    DistinctPairs(l);
    DistinctIf(l[..k] + l[k + 1..]);
  }
}
