/** src/day4.rs: pairs of section ranges `l-r,l-r`; part a counts pairs where one
    range contains the other, part b pairs that overlap.  A panic while parsing
    is `None`. */
module Day4 {
  import opened Wrappers
  import opened Strings

  /** A range of sections `left-right`, both ends included. */
  datatype Range = Range(left: nat, right: nat)

  /** `parse_range`: split at the first '-' and parse both sides. */
  function ParseRange(s: string): (r: Option<Range>)
    ensures '-' !in s ==> r.None?
    ensures r.Some? ==> exists l, rest ::
              && s == l + "-" + rest && '-' !in l
              && ParseNat(l) == Some(r.value.left) && ParseNat(rest) == Some(r.value.right)
  {
    match SplitOnce(s, '-')
    case None => None
    case Some((l, r)) =>
      match (ParseNat(l), ParseNat(r))
      case (Some(a), Some(b)) =>
        assert s == l + "-" + r;
        Some(Range(a, b))
      case _ => None
  }

  /** One input line: two ranges separated by the first ','. */
  function ParsePair(line: string): (r: Option<(Range, Range)>)
    ensures ',' !in line ==> r.None?
    ensures r.Some? ==> exists l, rest ::
              && line == l + "," + rest && ',' !in l
              && ParseRange(l) == Some(r.value.0) && ParseRange(rest) == Some(r.value.1)
  {
    match SplitOnce(line, ',')
    case None => None
    case Some((l, r)) =>
      match (ParseRange(l), ParseRange(r))
      case (Some(a), Some(b)) =>
        assert line == l + "," + r;
        Some((a, b))
      case _ => None
  }

  function RangeText(a: Range): string
  {
    NatToString(a.left) + "-" + NatToString(a.right)
  }

  lemma DigitsHaveNo(s: string, c: char)
    requires AllDigits(s) && !IsDigit(c)
    ensures c !in s
  {
  }

  /** A range written as `l-r` parses back. */
  lemma ParseRangeInverts(a: Range)
    ensures ParseRange(RangeText(a)) == Some(a)
  {
    var l := NatToString(a.left);
    DigitsHaveNo(l, '-');
    assert RangeText(a) == l + ['-'] + NatToString(a.right);
    SplitOnceJoin(l, NatToString(a.right), '-');
    ParseNatToString(a.left);
    ParseNatToString(a.right);
  }

  /** A line written as `l-r,l-r` parses back. */
  lemma ParsePairInverts(a: Range, b: Range)
    ensures ParsePair(RangeText(a) + "," + RangeText(b)) == Some((a, b))
  {
    var l := RangeText(a);
    DigitsHaveNo(NatToString(a.left), ',');
    DigitsHaveNo(NatToString(a.right), ',');
    assert ',' !in l;
    assert l + "," + RangeText(b) == l + [','] + RangeText(b);
    SplitOnceJoin(l, RangeText(b), ',');
    ParseRangeInverts(a);
    ParseRangeInverts(b);
  }

  /** The filter of `day4a`: one range contains the other. */
  predicate FullyContains(a: Range, b: Range)
  {
    (a.left <= b.left && a.right >= b.right) || (b.left <= a.left && b.right >= a.right)
  }

  /** The filter of `day4b`: the ranges overlap. */
  predicate Overlaps(a: Range, b: Range)
  {
    a.left <= b.right && b.left <= a.right
  }

  predicate WellFormed(a: Range)
  {
    a.left <= a.right
  }

  predicate Covers(a: Range, x: int)
  {
    a.left <= x <= a.right
  }

  lemma FiltersAreSymmetric(a: Range, b: Range)
    ensures FullyContains(a, b) == FullyContains(b, a)
    ensures Overlaps(a, b) == Overlaps(b, a)
  {
  }

  /** For well-formed ranges, containment is inclusion of the sets of sections
      one way or the other. */
  lemma FullyContainsIsInclusion(a: Range, b: Range)
    requires WellFormed(a) && WellFormed(b)
    ensures FullyContains(a, b) <==>
              (forall x :: Covers(b, x) ==> Covers(a, x)) || (forall x :: Covers(a, x) ==> Covers(b, x))
  {
    if forall x :: Covers(b, x) ==> Covers(a, x) {
      assert Covers(b, b.left) && Covers(b, b.right);
    }
    if forall x :: Covers(a, x) ==> Covers(b, x) {
      assert Covers(a, a.left) && Covers(a, a.right);
    }
  }

  /** For well-formed ranges, overlap means a shared section. */
  lemma OverlapsIsSharedPoint(a: Range, b: Range)
    requires WellFormed(a) && WellFormed(b)
    ensures Overlaps(a, b) <==> exists x :: Covers(a, x) && Covers(b, x)
  {
    if Overlaps(a, b) {
      var x := if a.left >= b.left then a.left else b.left;
      assert Covers(a, x) && Covers(b, x);
    }
  }

  /** A well-formed range contained in the other overlaps it. */
  lemma ContainmentImpliesOverlap(a: Range, b: Range)
    requires WellFormed(a) && WellFormed(b) && FullyContains(a, b)
    ensures Overlaps(a, b)
  {
  }

  /** Number of pairs passing a filter (`.filter(..).count()`). */
  function Count(pairs: seq<(Range, Range)>, p: ((Range, Range)) -> bool): (n: nat)
    ensures n <= |pairs|
  {
    if |pairs| == 0 then 0
    else Count(pairs[..|pairs| - 1], p) + (if p(pairs[|pairs| - 1]) then 1 else 0)
  }

  /** The count is the number of indices whose pair passes the filter. */
  lemma {:induction false} CountIsIndexSet(pairs: seq<(Range, Range)>, p: ((Range, Range)) -> bool)
    ensures Count(pairs, p) == |set i | 0 <= i < |pairs| && p(pairs[i])|
  {
    if |pairs| > 0 {
      var n := |pairs| - 1;
      var init := pairs[..n];
      CountIsIndexSet(init, p);
      var before := set i | 0 <= i < n && p(init[i]);
      var after := set i | 0 <= i < |pairs| && p(pairs[i]);
      if p(pairs[n]) {
        assert after == before + {n};
      } else {
        assert after == before;
      }
    }
  }

  /** A weaker filter passes at least as many pairs. */
  lemma {:induction false} CountMonotone(pairs: seq<(Range, Range)>, p: ((Range, Range)) -> bool, q: ((Range, Range)) -> bool)
    requires forall i :: 0 <= i < |pairs| && p(pairs[i]) ==> q(pairs[i])
    ensures Count(pairs, p) <= Count(pairs, q)
  {
    if |pairs| > 0 {
      CountMonotone(pairs[..|pairs| - 1], p, q);
    }
  }

  predicate PairContains(pair: (Range, Range))
  {
    FullyContains(pair.0, pair.1)
  }

  predicate PairOverlaps(pair: (Range, Range))
  {
    Overlaps(pair.0, pair.1)
  }

  /** `day4a`: the number of pairs where one range contains the other. */
  function Day4a(pairs: seq<(Range, Range)>): (n: nat)
    ensures n == |set i | 0 <= i < |pairs| && PairContains(pairs[i])|
  {
    var p: ((Range, Range)) -> bool := PairContains;
    CountIsIndexSet(pairs, p);
    assert (set i | 0 <= i < |pairs| && PairContains(pairs[i])) == set i | 0 <= i < |pairs| && p(pairs[i]);
    Count(pairs, p)
  }

  /** `day4b`: the number of pairs whose ranges overlap. */
  function Day4b(pairs: seq<(Range, Range)>): (n: nat)
    ensures n == |set i | 0 <= i < |pairs| && PairOverlaps(pairs[i])|
  {
    var p: ((Range, Range)) -> bool := PairOverlaps;
    CountIsIndexSet(pairs, p);
    assert (set i | 0 <= i < |pairs| && PairOverlaps(pairs[i])) == set i | 0 <= i < |pairs| && p(pairs[i]);
    Count(pairs, p)
  }

  /** With well-formed ranges, at least as many pairs overlap as contain one another. */
  lemma OverlapCountAtLeastContainCount(pairs: seq<(Range, Range)>)
    requires forall i :: 0 <= i < |pairs| ==> WellFormed(pairs[i].0) && WellFormed(pairs[i].1)
    ensures Day4a(pairs) <= Day4b(pairs)
  {
    CountMonotone(pairs, PairContains, PairOverlaps);
  }
}
