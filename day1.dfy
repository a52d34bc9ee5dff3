/** src/day1.rs: the calories carried by each elf (one group of lines per elf),
    the largest group total and the sum of the three largest.  The groups start
    already split on blank lines and parsed. */
module Day1 {

  function Sum(s: seq<int>): int
  {
    if |s| == 0 then 0 else Sum(s[..|s| - 1]) + s[|s| - 1]
  }

  /** The total of each group, in input order. */
  function Totals(groups: seq<seq<int>>): (r: seq<int>)
    ensures |r| == |groups|
  {
    seq(|groups|, i requires 0 <= i < |groups| => Sum(groups[i]))
  }

  /** Largest element (`.max().unwrap()`). */
  function MaxOf(s: seq<int>): (m: int)
    requires |s| > 0
    ensures m in s && forall j :: 0 <= j < |s| ==> s[j] <= m
  {
    if |s| == 1 then s[0]
    else
      var rest := MaxOf(s[..|s| - 1]);
      if rest >= s[|s| - 1] then rest else s[|s| - 1]
  }

  /** `day1a`: the largest group total.  `split` always yields one group at least. */
  function Day1a(groups: seq<seq<nat>>): (r: int)
    requires |groups| > 0
    ensures exists i :: 0 <= i < |groups| && r == Sum(groups[i])
    ensures forall i :: 0 <= i < |groups| ==> Sum(groups[i]) <= r
  {
    var t := Totals(groups);
    var m := MaxOf(t);
    assert forall i :: 0 <= i < |groups| ==> t[i] == Sum(groups[i]);
    m
  }

  predicate Descending(s: seq<int>)
  {
    forall i, j :: 0 <= i < j < |s| ==> s[i] >= s[j]
  }

  /** x placed into a descending sequence in front of the first smaller element. */
  function InsertDescending(x: int, s: seq<int>): (r: seq<int>)
    requires Descending(s)
    ensures |r| == |s| + 1 && (r[0] == x || (|s| > 0 && r[0] == s[0]))
    ensures Descending(r) && multiset(r) == multiset(s) + multiset{x}
  {
    if |s| == 0 || x >= s[0] then [x] + s
    else
      var rest := InsertDescending(x, s[1..]);
      assert s == [s[0]] + s[1..];
      assert s[0] >= rest[0];
      [s[0]] + rest
  }

  /** `sorted_by_key(|i| -i)`: the totals from largest to smallest. */
  function SortDescending(s: seq<int>): (r: seq<int>)
    ensures |r| == |s|
    ensures Descending(r) && multiset(r) == multiset(s)
  {
    if |s| == 0 then []
    else
      assert s == s[..|s| - 1] + [s[|s| - 1]];
      InsertDescending(s[|s| - 1], SortDescending(s[..|s| - 1]))
  }

  function Min(a: nat, b: nat): nat
  {
    if a <= b then a else b
  }

  /** The `.take(3)` of the sorted totals. */
  function TopThree(totals: seq<int>): seq<int>
  {
    SortDescending(totals)[..Min(3, |totals|)]
  }

  /** `day1b`: the sum of the three largest group totals (all of them when there
      are fewer than three). */
  function Day1b(groups: seq<seq<int>>): (r: int)
    ensures exists top: seq<int> ::
              && |top| == Min(3, |groups|)
              && multiset(top) <= multiset(Totals(groups))
              && r == Sum(top)
              && forall x, y :: x in multiset(top) && y in multiset(Totals(groups)) - multiset(top) ==> x >= y
  {
    var top := TopThree(Totals(groups));
    TopThreeAreLargest(Totals(groups));
    Sum(top)
  }

  // ---- properties ----

  /** The three taken totals are totals of the input, as many as there are up to
      three, and none of the totals left out is larger than any taken one. */
  lemma TopThreeAreLargest(totals: seq<int>)
    ensures |TopThree(totals)| == Min(3, |totals|)
    ensures multiset(TopThree(totals)) <= multiset(totals)
    ensures forall x, y :: x in multiset(TopThree(totals)) && y in multiset(totals) - multiset(TopThree(totals)) ==> x >= y
  {
    var s := SortDescending(totals);
    var k := Min(3, |totals|);
    assert TopThree(totals) == s[..k];
    assert s == s[..k] + s[k..];
    assert multiset(s) == multiset(s[..k]) + multiset(s[k..]);
    PrefixIsLargest(s, k);
  }

  /** In a descending sequence, no element after the first k exceeds one of the
      first k. */
  lemma PrefixIsLargest(s: seq<int>, k: nat)
    requires Descending(s) && k <= |s|
    ensures forall x, y :: x in multiset(s[..k]) && y in multiset(s) - multiset(s[..k]) ==> x >= y
  {
    SplitMultiset(s, k);
    forall x, y | x in multiset(s[..k]) && y in multiset(s[k..]) ensures x >= y {
      assert x in s[..k];
      var i :| 0 <= i < k && s[..k][i] == x;
      assert y in s[k..];
      var j :| 0 <= j < |s| - k && s[k..][j] == y;
      assert s[i] == x && s[k + j] == y;
    }
  }

  /** Taking away the first k elements leaves the multiset of the rest. */
  lemma SplitMultiset(s: seq<int>, k: nat)
    requires k <= |s|
    ensures multiset(s) - multiset(s[..k]) == multiset(s[k..])
  {
    assert s == s[..k] + s[k..];
  }

  lemma {:induction false} SumNonNegative(s: seq<int>)
    requires forall i :: 0 <= i < |s| ==> s[i] >= 0
    ensures Sum(s) >= 0
  {
    if |s| > 0 {
      SumNonNegative(s[..|s| - 1]);
    }
  }

  lemma {:induction false} SumAtLeastFirst(s: seq<int>)
    requires |s| > 0 && forall i :: 0 <= i < |s| ==> s[i] >= 0
    ensures Sum(s) >= s[0]
  {
    if |s| > 1 {
      SumAtLeastFirst(s[..|s| - 1]);
    }
  }

  /** The first of the sorted totals is no smaller than any total. */
  lemma SortedFirstIsLargest(t: seq<int>, i: nat)
    requires i < |t|
    ensures SortDescending(t)[0] >= t[i]
  {
    var s := SortDescending(t);
    assert t[i] in multiset(s);
    var j :| 0 <= j < |s| && s[j] == t[i];
  }

  /** Sorting non-negative totals leaves them non-negative. */
  lemma SortedNonNegative(t: seq<int>)
    requires forall i :: 0 <= i < |t| ==> t[i] >= 0
    ensures forall i :: 0 <= i < |t| ==> SortDescending(t)[i] >= 0
  {
    var s := SortDescending(t);
    forall i | 0 <= i < |s| ensures s[i] >= 0 {
      assert s[i] in multiset(t);
    }
  }

  /** With non-negative values, the three largest sum to at least the largest. */
  lemma PartBAtLeastPartA(groups: seq<seq<nat>>)
    requires |groups| > 0
    ensures Day1b(groups) >= Day1a(groups)
  {
    var t := Totals(groups);
    forall i | 0 <= i < |t| ensures t[i] >= 0 {
      SumNonNegative(groups[i]);
    }
    SortedNonNegative(t);
    var top := TopThree(t);
    SumAtLeastFirst(top);
    var i :| 0 <= i < |groups| && Day1a(groups) == Sum(groups[i]);
    SortedFirstIsLargest(t, i);
  }
}
