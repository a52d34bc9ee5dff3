/** src/day9.rs: a rope whose knots follow the knot ahead of them as the head
    steps through the instructions; the answer is the number of positions the
    last knot visits.  Part a has two knots (`state.head`, `state.tail`), part b
    ten (`state[0]` the head). */
module Day9 {
  import opened Wrappers

  type Pos = (int, int)

  datatype CardinalDirection = Up | Down | Left | Right

  datatype DiagonalDirection = UpLeft | UpRight | DownLeft | DownRight

  datatype Direction = Cardinal(c: CardinalDirection) | Diagonal(d: DiagonalDirection)

  /** A direction and a distance; a distance of zero or less is no step at all
      (`for _ in 0..distance`). */
  datatype Instruction = Instruction(direction: CardinalDirection, distance: int)

  function Abs(x: int): nat
  {
    if x < 0 then -x else x
  }

  /** The letter column of an input line (`read_input`). */
  function ParseDirection(s: string): (r: Option<CardinalDirection>)
    ensures r.Some? <==> s in {"U", "D", "L", "R"}
  {
    if s == "U" then Some(Up)
    else if s == "D" then Some(Down)
    else if s == "L" then Some(Left)
    else if s == "R" then Some(Right)
    else None
  }

  /** `are_touching`: the knots are at most one apart on both axes. */
  predicate AreTouching(head: Pos, tail: Pos)
    ensures AreTouching(head, tail) <==> tail in Square(head)
  {
    Abs(head.0 - tail.0) <= 1 && Abs(head.1 - tail.1) <= 1
  }

  /** The nine positions of the 3x3 square centred on p. */
  function Square(p: Pos): set<Pos>
  {
    var (x, y) := p;
    {(x - 1, y - 1), (x, y - 1), (x + 1, y - 1),
     (x - 1, y), (x, y), (x + 1, y),
     (x - 1, y + 1), (x, y + 1), (x + 1, y + 1)}
  }

  /** `move_coord`: one step, with `y` growing downwards; the new position is
      different from the old one and touches it. */
  function MoveCoord(p: Pos, direction: Direction): (r: Pos)
    ensures r != p && AreTouching(p, r)
  {
    var (x, y) := p;
    match direction
    case Cardinal(Up) => (x, y - 1)
    case Cardinal(Down) => (x, y + 1)
    case Cardinal(Left) => (x - 1, y)
    case Cardinal(Right) => (x + 1, y)
    case Diagonal(UpLeft) => (x - 1, y - 1)
    case Diagonal(UpRight) => (x + 1, y - 1)
    case Diagonal(DownLeft) => (x - 1, y + 1)
    case Diagonal(DownRight) => (x + 1, y + 1)
  }

  /** b' is one step from b towards a, or b itself when it is level with a. */
  predicate StepsToward(a: int, b: int, b': int)
  {
    if a == b then b' == b else if a > b then b' == b + 1 else b' == b - 1
  }

  /** `get_direction_to_move_to`: no move when the knots touch; otherwise the
      move that takes the tail one step towards the head on each axis where they
      differ, and leaves the other axis alone. */
  function GetDirectionToMoveTo(head: Pos, tail: Pos): (r: Option<Direction>)
    ensures r.None? <==> AreTouching(head, tail)
    ensures r.Some? ==>
              && StepsToward(head.0, tail.0, MoveCoord(tail, r.value).0)
              && StepsToward(head.1, tail.1, MoveCoord(tail, r.value).1)
  {
    if AreTouching(head, tail) then None
    else
      var xDiff := tail.0 - head.0;
      var yDiff := tail.1 - head.1;
      if yDiff == 0 then
        if xDiff > 0 then Some(Cardinal(Left)) else Some(Cardinal(Right))
      else if xDiff == 0 then
        if yDiff > 0 then Some(Cardinal(Up)) else Some(Cardinal(Down))
      else if xDiff > 0 && yDiff > 0 then Some(Diagonal(UpLeft))
      else if xDiff > 0 && yDiff < 0 then Some(Diagonal(DownLeft))
      else if xDiff < 0 && yDiff > 0 then Some(Diagonal(UpRight))
      else Some(Diagonal(DownRight))
  }

  /** The follow step of one knot: the new position of `tail` once `head` has moved. */
  function Follow(head: Pos, tail: Pos): (r: Pos)
    ensures AreTouching(head, tail) ==> r == tail
    ensures !AreTouching(head, tail) ==> StepsToward(head.0, tail.0, r.0) && StepsToward(head.1, tail.1, r.1)
    ensures AreTouching(tail, r)
  {
    match GetDirectionToMoveTo(head, tail)
    case None => tail
    case Some(d) => MoveCoord(tail, d)
  }

  lemma AreTouchingIsSymmetricAndReflexive(a: Pos, b: Pos)
    ensures AreTouching(a, a)
    ensures AreTouching(a, b) == AreTouching(b, a)
  {
  }

  /** Each differing coordinate gets exactly one closer, without overshooting. */
  lemma FollowGetsCloser(head: Pos, tail: Pos)
    requires !AreTouching(head, tail)
    ensures var t := Follow(head, tail);
            && (head.0 != tail.0 ==> Abs(head.0 - t.0) == Abs(head.0 - tail.0) - 1)
            && (head.1 != tail.1 ==> Abs(head.1 - t.1) == Abs(head.1 - tail.1) - 1)
            && (head.0 == tail.0 ==> t.0 == tail.0)
            && (head.1 == tail.1 ==> t.1 == tail.1)
  {
  }

  /** A knot that touched the knot ahead of it touches it again after that knot
      takes one step (cardinal or diagonal) and it follows; the follower itself
      moves by at most one step. */
  lemma FollowTouchesAgain(head: Pos, tail: Pos, head': Pos)
    requires AreTouching(head, tail) && AreTouching(head, head')
    ensures AreTouching(head', Follow(head', tail))
    ensures AreTouching(tail, Follow(head', tail))
  {
  }

  // ---- the rope, as a specification ----

  /** Every knot touches the knot ahead of it. */
  predicate RopeTouching(knots: seq<Pos>)
  {
    forall i :: 1 <= i < |knots| ==> AreTouching(knots[i - 1], knots[i])
  }

  /** The inner loop of `day9b` from knot i on: each knot follows the (already
      moved) knot ahead of it. */
  function FollowFrom(knots: seq<Pos>, i: nat): (r: seq<Pos>)
    requires 1 <= i
    ensures |r| == |knots|
    decreases |knots| - i
  {
    if i >= |knots| then knots
    else FollowFrom(knots[i := Follow(knots[i - 1], knots[i])], i + 1)
  }

  /** One step of the head in direction c, then the follow steps. */
  function Step(knots: seq<Pos>, c: CardinalDirection): (r: seq<Pos>)
    requires |knots| > 0
    ensures |r| == |knots|
  {
    FollowFrom(knots[0 := MoveCoord(knots[0], Cardinal(c))], 1)
  }

  function InitialRope(n: nat): seq<Pos>
  {
    seq(n, _ => (0, 0))
  }

  function Repeat(c: CardinalDirection, n: nat): (r: seq<CardinalDirection>)
    ensures |r| == n
  {
    if n == 0 then [] else Repeat(c, n - 1) + [c]
  }

  function StepCount(distance: int): nat
  {
    if distance > 0 then distance else 0
  }

  /** The single head steps the instructions spell out. */
  function Steps(instructions: seq<Instruction>): seq<CardinalDirection>
  {
    if |instructions| == 0 then []
    else
      var last := instructions[|instructions| - 1];
      Steps(instructions[..|instructions| - 1]) + Repeat(last.direction, StepCount(last.distance))
  }

  function Run(knots: seq<Pos>, steps: seq<CardinalDirection>): (r: seq<Pos>)
    requires |knots| > 0
    ensures |r| == |knots|
  {
    if |steps| == 0 then knots
    else Step(Run(knots, steps[..|steps| - 1]), steps[|steps| - 1])
  }

  /** The set of positions of the last knot, before and after every step. */
  function Visited(knots: seq<Pos>, steps: seq<CardinalDirection>): set<Pos>
    requires |knots| > 0
  {
    if |steps| == 0 then {knots[|knots| - 1]}
    else Visited(knots, steps[..|steps| - 1]) + {Run(knots, steps)[|knots| - 1]}
  }

  /** The follow steps from knot i on restore `RopeTouching`, when the knots
      before i touch each other, knot i - 1 has taken one step from where it was
      in `before`, and knot i and those behind it are where they were. */
  lemma {:induction false} FollowFromKeepsTouching(knots: seq<Pos>, i: nat, before: seq<Pos>)
    requires 1 <= i <= |knots| == |before|
    requires RopeTouching(before)
    requires forall k :: 1 <= k < i ==> AreTouching(knots[k - 1], knots[k])
    requires forall k :: i <= k < |knots| ==> knots[k] == before[k]
    requires AreTouching(before[i - 1], knots[i - 1])
    ensures RopeTouching(FollowFrom(knots, i))
    decreases |knots| - i
  {
    if i < |knots| {
      FollowTouchesAgain(before[i - 1], before[i], knots[i - 1]);
      FollowFromKeepsTouching(knots[i := Follow(knots[i - 1], knots[i])], i + 1, before);
    }
  }

  /** A step of the head keeps every knot touching the knot ahead of it. */
  lemma StepKeepsTouching(knots: seq<Pos>, c: CardinalDirection)
    requires |knots| > 0 && RopeTouching(knots)
    ensures RopeTouching(Step(knots, c))
  {
    FollowFromKeepsTouching(knots[0 := MoveCoord(knots[0], Cardinal(c))], 1, knots);
  }

  /** In the rope that starts with all knots at the origin, every adjacent pair
      of knots touches after every step. */
  lemma {:induction false} RunKeepsTouching(n: nat, steps: seq<CardinalDirection>)
    requires n > 0
    ensures RopeTouching(Run(InitialRope(n), steps))
  {
    if |steps| > 0 {
      RunKeepsTouching(n, steps[..|steps| - 1]);
      StepKeepsTouching(Run(InitialRope(n), steps[..|steps| - 1]), steps[|steps| - 1]);
    }
  }

  /** The visited set is the set of positions of the last knot after each prefix
      of the steps. */
  /** Every position the last knot takes, after any prefix of the steps, is in
      the visited set. */
  lemma {:induction false} TailsAreVisited(knots: seq<Pos>, steps: seq<CardinalDirection>, k: nat)
    requires |knots| > 0 && k <= |steps|
    ensures Run(knots, steps[..k])[|knots| - 1] in Visited(knots, steps)
  {
    if k == |steps| {
      assert steps[..k] == steps;
    } else {
      var init := steps[..|steps| - 1];
      assert init[..k] == steps[..k];
      TailsAreVisited(knots, init, k);
    }
  }

  /** Every visited position is where the last knot is after some prefix of the steps. */
  lemma {:induction false} VisitedAreTails(knots: seq<Pos>, steps: seq<CardinalDirection>, p: Pos) returns (k: nat)
    requires |knots| > 0 && p in Visited(knots, steps)
    ensures k <= |steps| && p == Run(knots, steps[..k])[|knots| - 1]
  {
    if |steps| == 0 || p == Run(knots, steps)[|knots| - 1] {
      k := |steps|;
      assert steps[..k] == steps;
    } else {
      var init := steps[..|steps| - 1];
      k := VisitedAreTails(knots, init, p);
      assert init[..k] == steps[..k];
    }
  }

  // ---- the step loops ----

  lemma RunSnoc(knots: seq<Pos>, steps: seq<CardinalDirection>, c: CardinalDirection)
    requires |knots| > 0
    ensures Run(knots, steps + [c]) == Step(Run(knots, steps), c)
    ensures Visited(knots, steps + [c]) == Visited(knots, steps) + {Step(Run(knots, steps), c)[|knots| - 1]}
  {
    assert (steps + [c])[..|steps|] == steps;
  }

  /** n + 1 repeats are n repeats and one more. */
  lemma RepeatSnoc(done: seq<CardinalDirection>, c: CardinalDirection, n: nat)
    ensures done + Repeat(c, n + 1) == (done + Repeat(c, n)) + [c]
  {
  }

  lemma StepsSnoc(instructions: seq<Instruction>, i: nat)
    requires i < |instructions|
    ensures Steps(instructions[..i + 1]) ==
            Steps(instructions[..i]) + Repeat(instructions[i].direction, StepCount(instructions[i].distance))
  {
    assert instructions[..i + 1][..i] == instructions[..i];
  }

  /** One step of a two-knot rope. */
  lemma StepTwoKnots(head: Pos, tail: Pos, c: CardinalDirection)
    ensures Step([head, tail], c) == [MoveCoord(head, Cardinal(c)), Follow(MoveCoord(head, Cardinal(c)), tail)]
  {
    var h := MoveCoord(head, Cardinal(c));
    assert [head, tail][0 := h] == [h, tail];
    assert [h, tail][1 := Follow(h, tail)] == [h, Follow(h, tail)];
    assert FollowFrom([h, tail], 1) == FollowFrom([h, Follow(h, tail)], 2);
    assert FollowFrom([h, Follow(h, tail)], 2) == [h, Follow(h, tail)];
  }

  lemma TailInVisited(knots: seq<Pos>, steps: seq<CardinalDirection>)
    requires |knots| > 0
    ensures Run(knots, steps)[|knots| - 1] in Visited(knots, steps)
  {
  }

  /** `day9a`: the number of positions the tail of a two-knot rope visits. */
  method Day9a(instructions: seq<Instruction>) returns (count: nat)
    ensures count == |Visited(InitialRope(2), Steps(instructions))|
  {
    ghost var init := InitialRope(2);
    var head: Pos := (0, 0);
    var tail: Pos := (0, 0);
    var visited := {tail};
    ghost var done: seq<CardinalDirection> := [];
    assert init == [head, tail];
    for i := 0 to |instructions|
      invariant done == Steps(instructions[..i])
      invariant Run(init, done) == [head, tail]
      invariant visited == Visited(init, done)
    {
      var Instruction(direction, distance) := instructions[i];
      var n := StepCount(distance);
      head, tail, visited := StepPair(init, done, direction, n, head, tail, visited);
      StepsSnoc(instructions, i);
      done := done + Repeat(direction, n);
    }
    assert instructions[..|instructions|] == instructions;
    count := |visited|;
  }

  /** The inner loop of `day9a`: n steps of the head in one direction, the tail
      following each. */
  method StepPair(ghost init: seq<Pos>, ghost done: seq<CardinalDirection>, direction: CardinalDirection, n: nat,
                  head: Pos, tail: Pos, visited: set<Pos>)
    returns (head': Pos, tail': Pos, visited': set<Pos>)
    requires |init| == 2
    requires Run(init, done) == [head, tail]
    requires visited == Visited(init, done)
    ensures Run(init, done + Repeat(direction, n)) == [head', tail']
    ensures visited' == Visited(init, done + Repeat(direction, n))
  {
    head', tail', visited' := head, tail, visited;
    ghost var s := done;
    assert done + Repeat(direction, 0) == done;
    for j := 0 to n
      invariant s == done + Repeat(direction, j)
      invariant Run(init, s) == [head', tail']
      invariant visited' == Visited(init, s)
    {
      head', tail', visited' := StepOnce(init, s, direction, head', tail', visited');
      s := s + [direction];
    }
  }

  /** One step of the head of a two-knot rope, the tail following it. */
  method StepOnce(ghost init: seq<Pos>, ghost s: seq<CardinalDirection>, direction: CardinalDirection,
                  head: Pos, tail: Pos, visited: set<Pos>)
    returns (head': Pos, tail': Pos, visited': set<Pos>)
    requires |init| == 2
    requires Run(init, s) == [head, tail]
    requires visited == Visited(init, s)
    ensures Run(init, s + [direction]) == [head', tail']
    ensures visited' == Visited(init, s + [direction])
  {
    TailInVisited(init, s);
    RunSnoc(init, s, direction);
    StepTwoKnots(head, tail, direction);
    head' := MoveCoord(head, Cardinal(direction));
    tail', visited' := tail, visited;
    match GetDirectionToMoveTo(head', tail)
    case Some(d) =>
      tail' := MoveCoord(tail, d);
      visited' := visited + {tail'};
    case None =>
  }

  /** The knot loop of `day9b` on a ten-knot array: each knot follows the one
      ahead of it, and the last knot's new position is recorded when it moves. */
  method FollowKnots(state: array<Pos>, visited: set<Pos>) returns (visited': set<Pos>)
    requires state.Length == 10 && state[9] in visited
    modifies state
    ensures state[..] == FollowFrom(old(state[..]), 1)
    ensures visited' == visited + {state[9]}
  {
    ghost var start := state[..];
    visited' := visited;
    for i := 1 to state.Length
      invariant FollowFrom(state[..], i) == FollowFrom(start, 1)
      invariant forall k :: i <= k < state.Length ==> state[k] == start[k]
      invariant i < state.Length ==> visited' == visited
      invariant i == state.Length ==> visited' == visited + {state[9]}
    {
      var prev := state[i - 1];
      var next := state[i];
      assert state[..][i := Follow(prev, next)] == state[..][i := Follow(state[..][i - 1], state[..][i])];
      match GetDirectionToMoveTo(prev, next)
      case Some(d) =>
        state[i] := MoveCoord(next, d);
        if i == state.Length - 1 {
          visited' := visited' + {state[i]};
        }
      case None =>
        assert state[..][i := Follow(prev, next)] == state[..];
    }
  }

  /** One pass of the body of `day9b`'s step loop: the head moves, then the
      knots follow. */
  method StepRope(state: array<Pos>, visited: set<Pos>, direction: CardinalDirection) returns (visited': set<Pos>)
    requires state.Length == 10 && state[9] in visited
    modifies state
    ensures state[..] == Step(old(state[..]), direction)
    ensures visited' == visited + {state[9]}
  {
    state[0] := MoveCoord(state[0], Cardinal(direction));
    assert state[..] == old(state[..])[0 := MoveCoord(old(state[..])[0], Cardinal(direction))];
    visited' := FollowKnots(state, visited);
  }

  /** The `for _ in 0..distance` loop of `day9b`: n head steps in one direction,
      each followed by the knot loop. */
  method StepHead(state: array<Pos>, visited: set<Pos>, direction: CardinalDirection, n: nat,
                  ghost init: seq<Pos>, ghost done: seq<CardinalDirection>) returns (visited': set<Pos>)
    requires state.Length == 10 && |init| == 10
    requires Run(init, done) == state[..] && visited == Visited(init, done)
    modifies state
    ensures Run(init, done + Repeat(direction, n)) == state[..]
    ensures visited' == Visited(init, done + Repeat(direction, n))
  {
    visited' := visited;
    assert done + Repeat(direction, 0) == done;
    for j := 0 to n
      invariant Run(init, done + Repeat(direction, j)) == state[..]
      invariant visited' == Visited(init, done + Repeat(direction, j))
    {
      ghost var s := done + Repeat(direction, j);
      TailInVisited(init, s);
      assert state[9] == Run(init, s)[9];
      RunSnoc(init, s, direction);
      RepeatSnoc(done, direction, j);
      visited' := StepRope(state, visited', direction);
    }
  }

  /** `day9b`: the number of positions the last knot of a ten-knot rope visits. */
  method Day9b(instructions: seq<Instruction>) returns (count: nat)
    ensures count == |Visited(InitialRope(10), Steps(instructions))|
  {
    ghost var init := InitialRope(10);
    var state := new Pos[10](_ => (0, 0));
    var visited := {state[0]};
    ghost var done: seq<CardinalDirection> := [];
    assert state[..] == init;
    for i := 0 to |instructions|
      invariant done == Steps(instructions[..i])
      invariant Run(init, done) == state[..]
      invariant visited == Visited(init, done)
    {
      var Instruction(direction, distance) := instructions[i];
      var n := StepCount(distance);
      visited := StepHead(state, visited, direction, n, init, done);
      StepsSnoc(instructions, i);
      done := done + Repeat(direction, n);
    }
    assert instructions[..|instructions|] == instructions;
    count := |visited|;
  }
}
