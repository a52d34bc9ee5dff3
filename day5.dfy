/** src/day5.rs: stacks of crates moved by a crane.  Each stack is a
    `VecDeque` whose front (index 0 here) is the top crate.  Part a moves crates
    one at a time, part b several at once.  Parsing the moves starts from the
    three numbers the line's pattern captures. */
module Day5 {
  import opened Wrappers
  import opened Strings

  /** `Move`, with 0-based stack indices. */
  datatype Move = Move(count: nat, from: nat, to: nat)

  function Reverse<T>(s: seq<T>): (r: seq<T>)
    ensures |r| == |s|
  {
    if |s| == 0 then [] else [s[|s| - 1]] + Reverse(s[..|s| - 1])
  }

  lemma {:induction false} ReverseFacts<T>(s: seq<T>)
    ensures Reverse(Reverse(s)) == s
    ensures multiset(Reverse(s)) == multiset(s)
  {
    if |s| > 0 {
      var n := |s| - 1;
      ReverseFacts(s[..n]);
      ReverseFront(Reverse(s[..n]), s[n]);
      assert s == s[..n] + [s[n]];
    }
  }

  /** Reversing x followed by c puts c in front. */
  lemma ReverseFront<T>(s: seq<T>, c: T)
    ensures Reverse([c] + s) == Reverse(s) + [c]
  {
    if |s| > 0 {
      var n := |s| - 1;
      assert ([c] + s)[..|s|] == [c] + s[..n];
      ReverseFront(s[..n], c);
      assert s == s[..n] + [s[n]];
    }
  }

  /** What `apply_instruction` needs not to panic: both indices exist and the
      source stack holds `count` crates. */
  predicate ValidMove(stacks: seq<seq<char>>, m: Move)
  {
    m.from < |stacks| && m.to < |stacks| && m.count <= |stacks[m.from]|
  }

  /** The effect of a move: the first `count` crates leave `from` and land on
      `to`, reversed when moved one at a time, in order when moved together. */
  function Apply(stacks: seq<seq<char>>, m: Move, moveWholeStack: bool): (r: seq<seq<char>>)
    requires ValidMove(stacks, m)
    ensures |r| == |stacks|
  {
    var moved := stacks[m.from][..m.count];
    var drained := stacks[m.from := stacks[m.from][m.count..]];
    var placed := if moveWholeStack then moved else Reverse(moved);
    drained[m.to := placed + drained[m.to]]
  }

  /** The stacks of `day5a`/`day5b`, updated in place by each move. */
  class Ship {
    var stacks: seq<seq<char>>

    constructor(initial: seq<seq<char>>)
      ensures stacks == initial
    {
      stacks := initial;
    }

    /** `apply_instruction`: drain the first `count` crates of `from`, reverse
        them when the whole stack moves, and push each onto the front of `to`. */
    method ApplyInstruction(instruction: Move, moveWholeStack: bool)
      requires ValidMove(stacks, instruction)
      modifies this
      ensures stacks == Apply(old(stacks), instruction, moveWholeStack)
    {
      var moved := stacks[instruction.from][..instruction.count];
      stacks := stacks[instruction.from := stacks[instruction.from][instruction.count..]];
      if moveWholeStack {
        ReverseFacts(moved);
        moved := Reverse(moved);
      }
      PushAllFront(instruction.to, moved);
    }

    /** The `push_front` loop: each crate in turn goes on top of stack `to`, so
        they end up in reverse order. */
    method PushAllFront(to: nat, moved: seq<char>)
      requires to < |stacks|
      modifies this
      ensures stacks == old(stacks)[to := Reverse(moved) + old(stacks)[to]]
    {
      ghost var base := stacks;
      assert moved[..0] == [];
      assert [] + base[to] == base[to];
      assert base[to := base[to]] == base;
      for k := 0 to |moved|
        invariant stacks == base[to := Reverse(moved[..k]) + base[to]]
      {
        assert moved[..k + 1][..k] == moved[..k];
        assert Reverse(moved[..k + 1]) == [moved[k]] + Reverse(moved[..k]);
        assert [moved[k]] + (Reverse(moved[..k]) + base[to]) == Reverse(moved[..k + 1]) + base[to];
        stacks := stacks[to := [moved[k]] + stacks[to]];
      }
      assert moved[..|moved|] == moved;
    }
  }

  /** All crates on the ship, as a multiset. */
  function AllCrates(stacks: seq<seq<char>>): multiset<char>
  {
    if |stacks| == 0 then multiset{} else AllCrates(stacks[..|stacks| - 1]) + multiset(stacks[|stacks| - 1])
  }

  lemma {:induction false} AllCratesUpdate(stacks: seq<seq<char>>, i: nat, x: seq<char>)
    requires i < |stacks|
    ensures AllCrates(stacks[i := x]) + multiset(stacks[i]) == AllCrates(stacks) + multiset(x)
  {
    var n := |stacks| - 1;
    var t := stacks[i := x];
    if i < n {
      AllCratesUpdate(stacks[..n], i, x);
      assert t[..n] == stacks[..n][i := x];
      calc {
        AllCrates(t) + multiset(stacks[i]);
        AllCrates(stacks[..n][i := x]) + multiset(stacks[n]) + multiset(stacks[..n][i]);
        (AllCrates(stacks[..n][i := x]) + multiset(stacks[..n][i])) + multiset(stacks[n]);
        AllCrates(stacks[..n]) + multiset(x) + multiset(stacks[n]);
        AllCrates(stacks) + multiset(x);
      }
    } else {
      assert t[..n] == stacks[..n];
      calc {
        AllCrates(t) + multiset(stacks[i]);
        AllCrates(stacks[..n]) + multiset(x) + multiset(stacks[n]);
        AllCrates(stacks) + multiset(x);
      }
    }
  }

  /** Putting crates on top of one stack adds exactly those crates. */
  lemma AllCratesPushFront(stacks: seq<seq<char>>, i: nat, front: seq<char>)
    requires i < |stacks|
    ensures AllCrates(stacks[i := front + stacks[i]]) == AllCrates(stacks) + multiset(front)
  {
    var x := AllCrates(stacks[i := front + stacks[i]]);
    AllCratesUpdate(stacks, i, front + stacks[i]);
    assert multiset(front + stacks[i]) == multiset(front) + multiset(stacks[i]);
    forall c ensures x[c] == (AllCrates(stacks) + multiset(front))[c] {
      assert (x + multiset(stacks[i]))[c] == (AllCrates(stacks) + multiset(front + stacks[i]))[c];
    }
  }

  /** A move neither creates nor destroys crates. */
  lemma ApplyPreservesCrates(stacks: seq<seq<char>>, m: Move, moveWholeStack: bool)
    requires ValidMove(stacks, m)
    ensures AllCrates(Apply(stacks, m, moveWholeStack)) == AllCrates(stacks)
  {
    var moved := stacks[m.from][..m.count];
    var drained := stacks[m.from := stacks[m.from][m.count..]];
    var placed := if moveWholeStack then moved else Reverse(moved);
    assert Apply(stacks, m, moveWholeStack) == drained[m.to := placed + drained[m.to]];
    ReverseFacts(moved);
    assert stacks[m.from] == moved + drained[m.from];
    assert drained[m.from := moved + drained[m.from]] == stacks;
    AllCratesPushFront(drained, m.from, moved);
    AllCratesPushFront(drained, m.to, placed);
  }

  /** For distinct stacks: `from` loses exactly its first `count` crates, `to`
      gains them on top (reversed or not), and every other stack is unchanged. */
  lemma ApplyBetweenStacks(stacks: seq<seq<char>>, m: Move, moveWholeStack: bool)
    requires ValidMove(stacks, m) && m.from != m.to
    ensures var r := Apply(stacks, m, moveWholeStack);
            var moved := stacks[m.from][..m.count];
            && stacks[m.from] == moved + r[m.from]
            && r[m.to] == (if moveWholeStack then moved else Reverse(moved)) + stacks[m.to]
            && forall i :: 0 <= i < |stacks| && i != m.from && i != m.to ==> r[i] == stacks[i]
  {
    assert stacks[m.from] == stacks[m.from][..m.count] + stacks[m.from][m.count..];
  }

  /** All moves in order; `None` when one of them would panic. */
  function ApplyAll(stacks: seq<seq<char>>, moves: seq<Move>, moveWholeStack: bool): Option<seq<seq<char>>>
  {
    if |moves| == 0 then Some(stacks)
    else
      match ApplyAll(stacks, moves[..|moves| - 1], moveWholeStack)
      case None => None
      case Some(s) =>
        var m := moves[|moves| - 1];
        if ValidMove(s, m) then Some(Apply(s, m, moveWholeStack)) else None
  }

  lemma {:induction false} ApplyAllStaysFailed(stacks: seq<seq<char>>, moves: seq<Move>, moveWholeStack: bool, i: nat)
    requires i <= |moves| && ApplyAll(stacks, moves[..i], moveWholeStack).None?
    ensures ApplyAll(stacks, moves, moveWholeStack).None?
    decreases |moves| - i
  {
    if i < |moves| {
      assert moves[..i + 1][..i] == moves[..i];
      ApplyAllStaysFailed(stacks, moves, moveWholeStack, i + 1);
    } else {
      assert moves[..i] == moves;
    }
  }

  /** A run of moves keeps the number of stacks and the crates on the ship. */
  lemma {:induction false} ApplyAllPreservesCrates(stacks: seq<seq<char>>, moves: seq<Move>, moveWholeStack: bool)
    requires ApplyAll(stacks, moves, moveWholeStack).Some?
    ensures |ApplyAll(stacks, moves, moveWholeStack).value| == |stacks|
    ensures AllCrates(ApplyAll(stacks, moves, moveWholeStack).value) == AllCrates(stacks)
  {
    if |moves| > 0 {
      var s := ApplyAll(stacks, moves[..|moves| - 1], moveWholeStack);
      ApplyAllPreservesCrates(stacks, moves[..|moves| - 1], moveWholeStack);
      ApplyPreservesCrates(s.value, moves[|moves| - 1], moveWholeStack);
    }
  }

  /** `stacks_to_answer`: the top crate of every stack, in stack order; an empty
      stack panics. */
  function StacksToAnswer(stacks: seq<seq<char>>): (r: Option<string>)
    ensures r.None? <==> exists i :: 0 <= i < |stacks| && |stacks[i]| == 0
    ensures r.Some? ==> |r.value| == |stacks| && forall i :: 0 <= i < |stacks| ==> r.value[i] == stacks[i][0]
  {
    if |stacks| == 0 then Some([])
    else
      match StacksToAnswer(stacks[..|stacks| - 1])
      case None => None
      case Some(front) =>
        var last := stacks[|stacks| - 1];
        if |last| == 0 then None else Some(front + [last[0]])
  }

  /** The top crate of every non-empty stack is one of the ship's crates. */
  lemma {:induction false} TopsAreCrates(stacks: seq<seq<char>>)
    ensures forall i :: 0 <= i < |stacks| && |stacks[i]| > 0 ==> stacks[i][0] in AllCrates(stacks)
  {
    if |stacks| > 0 {
      var n := |stacks| - 1;
      TopsAreCrates(stacks[..n]);
      forall i | 0 <= i < |stacks| && |stacks[i]| > 0
        ensures stacks[i][0] in AllCrates(stacks)
      {
        if i < n {
          assert stacks[..n][i] == stacks[i];
        } else {
          assert stacks[i][0] in multiset(stacks[n]);
        }
      }
    }
  }

  /** The answer after all moves, or `None` when a move or the answer panics:
      one letter per stack, each a crate that was on the ship from the start. */
  function Answer(stacks: seq<seq<char>>, moves: seq<Move>, moveWholeStack: bool): (r: Option<string>)
    ensures r.Some? ==> |r.value| == |stacks|
    ensures r.Some? ==> forall i :: 0 <= i < |r.value| ==> r.value[i] in AllCrates(stacks)
    ensures |moves| == 0 ==> r == StacksToAnswer(stacks)
  {
    match ApplyAll(stacks, moves, moveWholeStack)
    case None => None
    case Some(s) =>
      ApplyAllPreservesCrates(stacks, moves, moveWholeStack);
      TopsAreCrates(s);
      StacksToAnswer(s)
  }

  /** The loop of `day5a` (moveWholeStack false) and `day5b` (true). */
  method RunMoves(initial: seq<seq<char>>, moves: seq<Move>, moveWholeStack: bool) returns (answer: Option<string>)
    ensures answer == Answer(initial, moves, moveWholeStack)
  {
    var ship := new Ship(initial);
    for i := 0 to |moves|
      invariant ApplyAll(initial, moves[..i], moveWholeStack) == Some(ship.stacks)
    {
      assert moves[..i + 1][..i] == moves[..i];
      if !ValidMove(ship.stacks, moves[i]) {
        ApplyAllStaysFailed(initial, moves, moveWholeStack, i + 1);
        return None;
      }
      ship.ApplyInstruction(moves[i], moveWholeStack);
    }
    assert moves[..|moves|] == moves;
    answer := StacksToAnswer(ship.stacks);
  }

  method Day5a(initial: seq<seq<char>>, moves: seq<Move>) returns (answer: Option<string>)
    ensures answer == Answer(initial, moves, false)
  {
    answer := RunMoves(initial, moves, false);
  }

  method Day5b(initial: seq<seq<char>>, moves: seq<Move>) returns (answer: Option<string>)
    ensures answer == Answer(initial, moves, true)
  {
    answer := RunMoves(initial, moves, true);
  }

  // ---- parsing ----

  predicate IsAsciiAlphabetic(c: char)
  {
    'A' <= c <= 'Z' || 'a' <= c <= 'z'
  }

  /** The letters at column i of the first n drawing lines, top line first
      (lines too short for the column contribute nothing). */
  function Column(lines: seq<seq<char>>, i: nat, n: nat): seq<char>
    requires n <= |lines|
  {
    if n == 0 then []
    else
      var line := lines[n - 1];
      Column(lines, i, n - 1) + (if i < |line| && IsAsciiAlphabetic(line[i]) then [line[i]] else [])
  }

  /** One stack per digit among the first n characters of the numbers line. */
  function Columns(numbersLine: seq<char>, lines: seq<seq<char>>, n: nat): seq<seq<char>>
    requires n <= |numbersLine|
  {
    if n == 0 then []
    else Columns(numbersLine, lines, n - 1) + (if IsDigit(numbersLine[n - 1]) then [Column(lines, n - 1, |lines|)] else [])
  }

  /** The stack loop of `parse_input`: for every digit of the numbers line, the
      letters found in that column of the drawing, top first. */
  method ParseStacks(numbersLine: seq<char>, stackLines: seq<seq<char>>) returns (stacks: seq<seq<char>>)
    ensures stacks == Columns(numbersLine, stackLines, |numbersLine|)
  {
    stacks := [];
    for i := 0 to |numbersLine|
      invariant stacks == Columns(numbersLine, stackLines, i)
    {
      if !IsDigit(numbersLine[i]) {
        continue;
      }
      var stack := [];
      for k := 0 to |stackLines|
        invariant stack == Column(stackLines, i, k)
      {
        var line := stackLines[k];
        if i < |line| && IsAsciiAlphabetic(line[i]) {
          stack := stack + [line[i]];
        }
      }
      stacks := stacks + [stack];
    }
  }

  function DigitCount(s: seq<char>): nat
  {
    if |s| == 0 then 0 else DigitCount(s[..|s| - 1]) + (if IsDigit(s[|s| - 1]) then 1 else 0)
  }

  /** Every crate of a column is a letter taken from that column, each line
      giving at most one. */
  lemma {:induction false} ColumnIsLetters(lines: seq<seq<char>>, i: nat, n: nat)
    requires n <= |lines|
    ensures |Column(lines, i, n)| <= n
    ensures forall c :: c in Column(lines, i, n) ==>
              IsAsciiAlphabetic(c) && exists k :: 0 <= k < n && i < |lines[k]| && lines[k][i] == c
  {
    if n > 0 {
      ColumnIsLetters(lines, i, n - 1);
    }
  }

  /** There are as many stacks as digits on the numbers line. */
  lemma {:induction false} ColumnsCount(numbersLine: seq<char>, lines: seq<seq<char>>, n: nat)
    requires n <= |numbersLine|
    ensures |Columns(numbersLine, lines, n)| == DigitCount(numbersLine[..n])
  {
    if n > 0 {
      ColumnsCount(numbersLine, lines, n - 1);
      assert numbersLine[..n][..n - 1] == numbersLine[..n - 1];
    }
  }

  /** A move line from its three captured numbers: the stack numbers are 1-based
      and become 0-based; stack number 0 underflows and panics. */
  function ParseMove(captures: seq<string>): (r: Option<Move>)
    requires |captures| == 3
    ensures r.Some? <==>
              && ParseNat(captures[0]).Some?
              && ParseNat(captures[1]).Some? && ParseNat(captures[1]).value >= 1
              && ParseNat(captures[2]).Some? && ParseNat(captures[2]).value >= 1
    ensures r.Some? ==>
              && r.value.count == ParseNat(captures[0]).value
              && r.value.from + 1 == ParseNat(captures[1]).value
              && r.value.to + 1 == ParseNat(captures[2]).value
  {
    match (ParseNat(captures[0]), ParseNat(captures[1]), ParseNat(captures[2]))
    case (Some(count), Some(from), Some(to)) =>
      if from == 0 || to == 0 then None else Some(Move(count, from - 1, to - 1))
    case _ => None
  }

  /** The three numbers of a move, written back with 1-based stack numbers,
      parse to the same move. */
  lemma ParseMoveRoundTrip(m: Move)
    ensures ParseMove([NatToString(m.count), NatToString(m.from + 1), NatToString(m.to + 1)]) == Some(m)
  {
    var captures := [NatToString(m.count), NatToString(m.from + 1), NatToString(m.to + 1)];
    ParseNatToString(m.count);
    ParseNatToString(m.from + 1);
    ParseNatToString(m.to + 1);
    assert ParseNat(captures[0]) == Some(m.count);
    assert ParseNat(captures[1]) == Some(m.from + 1);
    assert ParseNat(captures[2]) == Some(m.to + 1);
    var r := ParseMove(captures);
    assert r.Some? && r.value.count == m.count && r.value.from == m.from && r.value.to == m.to;
  }
}
