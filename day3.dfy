/** src/day3.rs: rucksack priorities.  Part a scores an item found in both halves
    of each line, part b an item found in all three lines of each group of three.
    The item is taken from a hash-set intersection, whose order is unspecified,
    so the model lets it be any common item.  A panic is `None`. */
module Day3 {
  import opened Wrappers

  predicate IsLower(ch: char)
  {
    'a' <= ch <= 'z'
  }

  /** `char::is_uppercase`, on ASCII letters. */
  predicate IsUpper(ch: char)
  {
    'A' <= ch <= 'Z'
  }

  predicate IsLetter(ch: char)
  {
    IsLower(ch) || IsUpper(ch)
  }

  /** `score_char`: 'a'..'z' score 1..26 and 'A'..'Z' score 27..52. */
  function ScoreChar(ch: char): (score: int)
    ensures IsLower(ch) ==> score == ch as int - 'a' as int + 1 && 1 <= score <= 26
    ensures IsUpper(ch) ==> score == ch as int - 'A' as int + 27 && 27 <= score <= 52
  {
    if IsUpper(ch) then ch as int - 'A' as int + 27 else ch as int - 'a' as int + 1
  }

  /** Distinct letters have distinct scores. */
  lemma ScoreCharInjective(a: char, b: char)
    requires IsLetter(a) && IsLetter(b) && ScoreChar(a) == ScoreChar(b)
    ensures a == b
  {
  }

  /** The set of items of a sequence (`HashSet::from_iter`). */
  function Items(s: seq<char>): set<char>
  {
    set ch | ch in s
  }

  /** Items in both halves of a line split at `len / 2`. */
  function HalvesCommon(line: seq<char>): set<char>
  {
    Items(line[..|line| / 2]) * Items(line[|line| / 2..])
  }

  /** Items in all three lines of a group. */
  function GroupCommon(a: seq<char>, b: seq<char>, c: seq<char>): set<char>
  {
    Items(a) * Items(b) * Items(c)
  }

  function SumScores(picks: seq<char>): int
  {
    if |picks| == 0 then 0 else SumScores(picks[..|picks| - 1]) + ScoreChar(picks[|picks| - 1])
  }

  /** Each letter scores between 1 and 52. */
  lemma {:induction false} SumScoresBounds(picks: seq<char>)
    requires forall i :: 0 <= i < |picks| ==> IsLetter(picks[i])
    ensures |picks| <= SumScores(picks) <= 52 * |picks|
  {
    if |picks| > 0 {
      SumScoresBounds(picks[..|picks| - 1]);
    }
  }

  /** `day3a`: sums the score of one common item per line; the `unwrap` of an
      empty intersection panics.  `picks` records the item taken from each line. */
  method Day3a(lines: seq<seq<char>>) returns (result: Option<int>, ghost picks: seq<char>)
    ensures result.None? <==> exists i :: 0 <= i < |lines| && HalvesCommon(lines[i]) == {}
    ensures result.Some? ==>
              && |picks| == |lines|
              && (forall i :: 0 <= i < |lines| ==> picks[i] in HalvesCommon(lines[i]))
              && result.value == SumScores(picks)
  {
    var sum := 0;
    picks := [];
    for i := 0 to |lines|
      invariant |picks| == i && sum == SumScores(picks)
      invariant forall k :: 0 <= k < i ==> picks[k] in HalvesCommon(lines[k])
    {
      var line := lines[i];
      var left := Items(line[..|line| / 2]);
      var right := Items(line[|line| / 2..]);
      var common := left * right;
      if common == {} {
        return None, picks;
      }
      var ch :| ch in common;
      assert (picks + [ch])[..i] == picks;
      picks := picks + [ch];
      sum := sum + ScoreChar(ch);
    }
    return Some(sum), picks;
  }

  /** `day3b`: sums the score of one item common to each group of three lines.
      `chunks(3)` leaves a shorter last group when the line count is not a
      multiple of three, and its `try_into().unwrap()` panics. */
  method Day3b(lines: seq<seq<char>>) returns (result: Option<int>, ghost picks: seq<char>)
    ensures result.Some? ==>
              && |lines| % 3 == 0
              && |picks| == |lines| / 3
              && (forall g :: 0 <= g < |picks| ==> picks[g] in GroupCommon(lines[3 * g], lines[3 * g + 1], lines[3 * g + 2]))
              && result.value == SumScores(picks)
    ensures result.None? <==>
              || |lines| % 3 != 0
              || exists g :: 0 <= g < |lines| / 3 && GroupCommon(lines[3 * g], lines[3 * g + 1], lines[3 * g + 2]) == {}
  {
    var sum := 0;
    picks := [];
    var start := 0;
    while start < |lines|
      invariant start == 3 * |picks| && (start <= |lines| || |lines| % 3 != 0)
      invariant sum == SumScores(picks)
      invariant forall g :: 0 <= g < |picks| ==> 3 * g + 2 < |lines| && picks[g] in GroupCommon(lines[3 * g], lines[3 * g + 1], lines[3 * g + 2])
      decreases |lines| - start
    {
      if |lines| - start < 3 {
        return None, picks;
      }
      var a := Items(lines[start]);
      var b := Items(lines[start + 1]);
      var c := Items(lines[start + 2]);
      var common := a * b * c;
      if common == {} {
        assert GroupCommon(lines[3 * |picks|], lines[3 * |picks| + 1], lines[3 * |picks| + 2]) == {};
        return None, picks;
      }
      var ch :| ch in common;
      assert (picks + [ch])[..|picks|] == picks;
      picks := picks + [ch];
      sum := sum + ScoreChar(ch);
      start := start + 3;
    }
    return Some(sum), picks;
  }

  /** The common item of a line is in the line, so when every line consists of
      letters each line contributes between 1 and 52. */
  lemma PicksAreLetters(lines: seq<seq<char>>, picks: seq<char>)
    requires |picks| == |lines|
    requires forall i :: 0 <= i < |lines| ==> picks[i] in HalvesCommon(lines[i])
    requires forall i, j :: 0 <= i < |lines| && 0 <= j < |lines[i]| ==> IsLetter(lines[i][j])
    ensures |lines| <= SumScores(picks) <= 52 * |lines|
  {
    forall i | 0 <= i < |picks| ensures IsLetter(picks[i]) {
      var line := lines[i];
      assert picks[i] in Items(line[..|line| / 2]);
      var j :| 0 <= j < |line| / 2 && line[..|line| / 2][j] == picks[i];
      assert line[j] == picks[i];
    }
    SumScoresBounds(picks);
  }

  /** When each line has exactly one common item, the sum does not depend on the
      order in which the hash sets are traversed. */
  lemma {:induction false} SumIsDetermined(lines: seq<seq<char>>, p: seq<char>, q: seq<char>)
    requires |p| == |lines| && |q| == |lines|
    requires forall i :: 0 <= i < |lines| ==> |HalvesCommon(lines[i])| == 1
    requires forall i :: 0 <= i < |lines| ==> p[i] in HalvesCommon(lines[i]) && q[i] in HalvesCommon(lines[i])
    ensures SumScores(p) == SumScores(q)
  {
    if |lines| > 0 {
      var n := |lines| - 1;
      SumIsDetermined(lines[..n], p[..n], q[..n]);
      SingletonMember(HalvesCommon(lines[n]), p[n], q[n]);
    }
  }

  lemma SingletonMember(s: set<char>, a: char, b: char)
    requires |s| == 1 && a in s && b in s
    ensures a == b
  {
    assert s == {a} + (s - {a});
    assert |s - {a}| == 0;
    assert b !in s - {a};
  }
}
