/** src/day11.rs, `process_rounds`: the product of the two largest
    inspection counts, computed by sorting them in descending order. */
module Ranking {
  /** Largest first. */
  function Insert(x: nat, s: seq<nat>): (r: seq<nat>)
    ensures multiset(r) == multiset{x} + multiset(s)
  {
    if |s| == 0 || x >= s[0] then [x] + s
    else
      assert s == [s[0]] + s[1..];
      [s[0]] + Insert(x, s[1..])
  }

  /** `sorted().rev()`. */
  function SortDesc(s: seq<nat>): (r: seq<nat>)
    ensures multiset(r) == multiset(s)
  {
    if |s| == 0 then []
    else
      assert s == [s[0]] + s[1..];
      Insert(s[0], SortDesc(s[1..]))
  }

  predicate Descending(s: seq<nat>)
  {
    forall i, j :: 0 <= i < j < |s| ==> s[i] >= s[j]
  }

  lemma {:induction false} InsertDescending(x: nat, s: seq<nat>)
    requires Descending(s)
    ensures Descending(Insert(x, s))
  {
    if |s| > 0 && x < s[0] {
      var r := Insert(x, s[1..]);
      InsertDescending(x, s[1..]);
      assert |r| > 0 && r[0] <= s[0] by {
        InsertFront(x, s[1..]);
      }
      assert Insert(x, s) == [s[0]] + r;
      forall i, j | 0 <= i < j < |r| + 1 ensures ([s[0]] + r)[i] >= ([s[0]] + r)[j] {
        if i == 0 && j > 1 {
          assert r[0] >= r[j - 1];
        }
      }
    }
  }

  /** The front of an insertion is the larger of x and the old front. */
  lemma InsertFront(x: nat, s: seq<nat>)
    ensures |Insert(x, s)| == |s| + 1
    ensures Insert(x, s)[0] == if |s| == 0 || x >= s[0] then x else s[0]
  {
    if |s| > 0 && x < s[0] {
      InsertFront(x, s[1..]);
    }
  }

  lemma {:induction false} SortDescending(s: seq<nat>)
    ensures Descending(SortDesc(s))
  {
    if |s| > 0 {
      SortDescending(s[1..]);
      InsertDescending(s[0], SortDesc(s[1..]));
    }
  }

  /** `.sorted().rev().take(2).product()`: 1 for no values, the value itself for
      one. */
  function TopTwoProduct(values: seq<nat>): nat
  {
    var s := SortDesc(values);
    if |s| == 0 then 1 else if |s| == 1 then s[0] else s[0] * s[1]
  }

  /** The head of a descending sequence is at least every value in it. */
  lemma HeadIsMax(s: seq<nat>, v: nat)
    requires |s| > 0 && Descending(s) && v in multiset(s)
    ensures v <= s[0]
  {
    assert v in s;
  }

  /** Taking the head out of a descending sequence leaves its tail's values. */
  lemma TailValues(s: seq<nat>)
    requires |s| > 0
    ensures multiset(s) - multiset{s[0]} == multiset(s[1..])
  {
    assert s == [s[0]] + s[1..];
  }

  /** Two descending sequences with the same values have the same head. */
  lemma SameHead(s: seq<nat>, t: seq<nat>)
    requires |s| > 0 && Descending(s) && Descending(t) && multiset(s) == multiset(t)
    ensures |t| > 0 && s[0] == t[0]
  {
    assert |t| == |multiset(t)| == |s|;
    assert s[0] in multiset(s) && t[0] in multiset(t);
    HeadIsMax(s, t[0]);
    HeadIsMax(t, s[0]);
  }

  /** With two or more values the product is that of the largest value a and
      the largest value b of those that remain once a is taken out. */
  lemma TopTwoProductIsLargest(values: seq<nat>) returns (a: nat, b: nat)
    requires |values| >= 2
    ensures TopTwoProduct(values) == a * b
    ensures a in multiset(values) && b in multiset(values) - multiset{a}
    ensures forall v :: v in multiset(values) ==> v <= a
    ensures forall v :: v in multiset(values) - multiset{a} ==> v <= b
  {
    var s := SortDesc(values);
    SortDescending(values);
    assert |s| == |multiset(values)| == |values|;
    a, b := s[0], s[1];
    TailValues(s);
    var rest := s[1..];
    assert Descending(rest) && rest[0] == b;
    assert a in multiset(s) && b in multiset(rest);
    forall v | v in multiset(values) ensures v <= a {
      HeadIsMax(s, v);
    }
    forall v | v in multiset(values) - multiset{a} ensures v <= b {
      HeadIsMax(rest, v);
    }
  }

  /** The value does not depend on the order the values come in, so the
      arbitrary iteration order of the source's map does not matter. */
  lemma TopTwoProductIgnoresOrder(a: seq<nat>, b: seq<nat>)
    requires multiset(a) == multiset(b)
    ensures TopTwoProduct(a) == TopTwoProduct(b)
  {
    var s, t := SortDesc(a), SortDesc(b);
    SortDescending(a);
    SortDescending(b);
    assert |s| == |multiset(a)| == |t|;
    if |s| >= 1 {
      SameHead(s, t);
      if |s| >= 2 {
        SameSecond(s, t);
      }
    }
  }

  /** Nor the second value. */
  lemma SameSecond(s: seq<nat>, t: seq<nat>)
    requires |s| > 1 && Descending(s) && Descending(t) && multiset(s) == multiset(t)
    ensures |t| > 1 && s[1] == t[1]
  {
    SameHead(s, t);
    TailValues(s);
    TailValues(t);
    var s', t' := s[1..], t[1..];
    assert Descending(s') && Descending(t');
    SameHead(s', t');
  }
}
