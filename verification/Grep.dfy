/** The regular-expression matcher of user/grep.c, proved against a
    declarative meaning of patterns.  A C string is the sequence of its
    characters before the NUL; re + k is the pattern without its first k. */
module Grep {
  datatype Item =
    | One(c: char)     // a character, or '.'
    | Many(c: char)    // c*
    | AtEnd            // a final '$'

  function Items(re: string): (items: seq<Item>) {
    if re == "" then []
    else if |re| > 1 && re[1] == '*' then [Many(re[0])] + Items(re[2..])
    else if re == "$" then [AtEnd]
    else [One(re[0])] + Items(re[1..])
  }

  predicate Fits(c: char, x: char) {
    c == '.' || c == x
  }

  /** text[a..b] is a word of the item. */
  predicate ItemFits(item: Item, text: string, a: int, b: int) {
    && 0 <= a <= b <= |text|
    && match item
       case One(c) => b == a + 1 && Fits(c, text[a])
       case Many(c) => forall m :: a <= m < b ==> Fits(c, text[m])
       case AtEnd => a == b == |text|
  }

  /** cuts divides text, from i on, into consecutive words of the items. */
  predicate Cut(items: seq<Item>, text: string, i: int, cuts: seq<int>) {
    && |cuts| == |items| + 1 && cuts[0] == i && 0 <= i <= |text|
    && forall k :: 0 <= k < |items| ==> ItemFits(items[k], text, cuts[k], cuts[k + 1])
  }

  ghost predicate Splits(items: seq<Item>, text: string, i: int) {
    exists cuts :: Cut(items, text, i, cuts)
  }

  ghost predicate MatchesAt(re: string, text: string, i: int) {
    Splits(Items(re), text, i)
  }

  /** What grep's pattern means: '^' ties it to the start of the text. */
  ghost predicate Matches(re: string, text: string) {
    if re != "" && re[0] == '^' then MatchesAt(re[1..], text, 0)
    else exists i :: 0 <= i <= |text| && MatchesAt(re, text, i)
  }

  // ---- one item at a time

  lemma CutCons(item: Item, items: seq<Item>, text: string, i: int, cuts: seq<int>)
    requires |cuts| == |items| + 2
    ensures Cut([item] + items, text, i, cuts) <==>
      cuts[0] == i && ItemFits(item, text, i, cuts[1]) && Cut(items, text, cuts[1], cuts[1..])
  {
    var all, rest := [item] + items, cuts[1..];
    if Cut(all, text, i, cuts) {
      assert ItemFits(all[0], text, cuts[0], cuts[0 + 1]);
      forall k | 0 <= k < |items| ensures ItemFits(items[k], text, rest[k], rest[k + 1]) {
        assert ItemFits(all[k + 1], text, cuts[k + 1], cuts[k + 1 + 1]);
      }
    }
    if cuts[0] == i && ItemFits(item, text, i, cuts[1]) && Cut(items, text, cuts[1], rest) {
      forall k | 0 <= k < |all| ensures ItemFits(all[k], text, cuts[k], cuts[k + 1]) {
        if k > 0 {
          assert ItemFits(items[k - 1], text, rest[k - 1], rest[k - 1 + 1]);
        }
      }
    }
  }

  /** A pattern matches where its first item and then the rest match. */
  lemma MatchesCons(item: Item, items: seq<Item>, text: string, i: int)
    ensures Splits([item] + items, text, i) <==> exists k :: ItemFits(item, text, i, k) && Splits(items, text, k)
  {
    if cuts :| Cut([item] + items, text, i, cuts) {
      CutCons(item, items, text, i, cuts);
      assert Splits(items, text, cuts[1]);
    }
    if k :| ItemFits(item, text, i, k) && Splits(items, text, k) {
      var cuts :| Cut(items, text, k, cuts);
      CutCons(item, items, text, i, [i] + cuts);
      assert ([i] + cuts)[1..] == cuts;
    }
  }

  lemma MatchesEmpty(text: string, i: int)
    requires 0 <= i <= |text|
    ensures MatchesAt("", text, i)
  {
    assert Items("") == [];
    assert Cut([], text, i, [i]);
  }

  lemma MatchesEnd(text: string, i: int)
    requires 0 <= i <= |text|
    ensures MatchesAt("$", text, i) <==> i == |text|
  {
    assert Items("$") == [AtEnd];
    if i == |text| {
      assert Cut([AtEnd], text, i, [i, i]);
    }
    if MatchesAt("$", text, i) {
      var cuts :| Cut([AtEnd], text, i, cuts);
      assert ItemFits([AtEnd][0], text, cuts[0], cuts[0 + 1]);
    }
  }

  lemma MatchesOne(re: string, text: string, i: int)
    requires re != "" && re != "$" && !(|re| > 1 && re[1] == '*') && 0 <= i <= |text|
    ensures MatchesAt(re, text, i) <==> i < |text| && Fits(re[0], text[i]) && MatchesAt(re[1..], text, i + 1)
  {
    assert Items(re) == [One(re[0])] + Items(re[1..]);
    MatchesCons(One(re[0]), Items(re[1..]), text, i);
    if i < |text| && Fits(re[0], text[i]) {
      assert ItemFits(One(re[0]), text, i, i + 1);
    }
  }

  lemma MatchesMany(re: string, text: string, i: int)
    requires |re| > 1 && re[1] == '*' && 0 <= i <= |text|
    ensures MatchesAt(re, text, i) <==> exists k :: ItemFits(Many(re[0]), text, i, k) && MatchesAt(re[2..], text, k)
  {
    assert Items(re) == [Many(re[0])] + Items(re[2..]);
    MatchesCons(Many(re[0]), Items(re[2..]), text, i);
    if k :| ItemFits(Many(re[0]), text, i, k) && Splits(Items(re[2..]), text, k) {
      assert MatchesAt(re[2..], text, k);
    }
  }

  // ---- the code

  method Match(re: string, text: string) returns (yes: bool)
    ensures yes <==> Matches(re, text)
  {
    if re != "" && re[0] == '^' {
      yes := MatchHere(re[1..], text, 0);
      return;
    }
    var i := 0;
    while true
      invariant 0 <= i <= |text|
      invariant forall j :: 0 <= j < i ==> !MatchesAt(re, text, j)
      decreases |text| - i
    {
      var here := MatchHere(re, text, i);
      if here {
        return true;
      }
      if i == |text| {
        return false;
      }
      i := i + 1;
    }
  }

  method MatchHere(re: string, text: string, i: int) returns (yes: bool)
    requires 0 <= i <= |text|
    ensures yes <==> MatchesAt(re, text, i)
    decreases |re|, 0
  {
    if re == "" {
      MatchesEmpty(text, i);
      return true;
    }
    if |re| > 1 && re[1] == '*' {
      MatchesMany(re, text, i);
      yes := MatchStar(re[0], re[2..], text, i);
      return;
    }
    if re == "$" {
      MatchesEnd(text, i);
      return i == |text|;
    }
    MatchesOne(re, text, i);
    if i < |text| && (re[0] == '.' || re[0] == text[i]) {
      yes := MatchHere(re[1..], text, i + 1);
      return;
    }
    return false;
  }

  /** c*re from i on: the shortest run of c first. */
  method MatchStar(c: char, re: string, text: string, i: int) returns (yes: bool)
    requires 0 <= i <= |text|
    ensures yes <==> exists k :: ItemFits(Many(c), text, i, k) && MatchesAt(re, text, k)
    decreases |re|, 1
  {
    var j := i;
    while true
      invariant i <= j <= |text| && ItemFits(Many(c), text, i, j)
      invariant forall k :: i <= k < j ==> !MatchesAt(re, text, k)
      decreases |text| - j
    {
      var here := MatchHere(re, text, j);
      if here {
        return true;
      }
      if j == |text| || !(text[j] == c || c == '.') {
        return false;
      }
      j := j + 1;
    }
  }
}
