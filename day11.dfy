/** src/day11.rs: monkeys pass items to one another according to a worry
    expression and a divisibility test.  Integer widths are not modelled; the
    division and remainder are Rust's, which truncate toward zero. */
module Day11 {
  import opened Wrappers
  import opened Strings
  import opened Arith
  import opened Ranking

  datatype OperationValue = Old | Int(i: int)

  datatype Operator = Mul | Add

  datatype Expression = Expression(left: OperationValue, op: Operator, right: OperationValue)

  /** An operand: `Old` stands for the item's current worry level. */
  function Operand(v: OperationValue, current: int): int
  {
    match v
    case Old => current
    case Int(i) => i
  }

  /** Neither operand of the expression is a negative constant. */
  predicate NonNegative(expr: Expression)
  {
    (expr.left.Int? ==> expr.left.i >= 0) && (expr.right.Int? ==> expr.right.i >= 0)
  }

  /** `eval_expression`: worry levels stay non-negative under expressions
      without negative constants. */
  function EvalExpression(expr: Expression, current: int): (r: int)
    ensures NonNegative(expr) && current >= 0 ==> r >= 0
  {
    var l := Operand(expr.left, current);
    var r := Operand(expr.right, current);
    match expr.op
    case Mul => l * r
    case Add => l + r
  }

  function Abs(x: int): nat
  {
    if x < 0 then -x else x
  }

  /** Rust's integer `/`: the quotient rounded toward zero. */
  function RustDiv(a: int, b: int): int
    requires b != 0
  {
    var q := Abs(a) / Abs(b);
    if (a < 0) == (b < 0) then q else -q
  }

  /** Rust's integer `%`: the remainder takes the sign of the dividend. */
  function RustRem(a: int, b: int): int
    requires b != 0
  {
    if a >= 0 then a % Abs(b) else -((-a) % Abs(b))
  }

  /** Evaluating the same expression on values congruent modulo m gives values
      congruent modulo m: worry levels may be reduced by m between rounds. */
  lemma EvalCongruent(expr: Expression, a: int, b: int, m: int)
    requires m > 0 && a % m == b % m
    ensures EvalExpression(expr, a) % m == EvalExpression(expr, b) % m
  {
    var j := a / m - b / m;
    assert a == b + m * j;
    var la, ra := Operand(expr.left, a), Operand(expr.right, a);
    var lb, rb := Operand(expr.left, b), Operand(expr.right, b);
    var jl := if expr.left.Old? then j else 0;
    var jr := if expr.right.Old? then j else 0;
    assert la == lb + m * jl && ra == rb + m * jr;
    match expr.op
    case Add =>
      assert la + ra == lb + rb + m * (jl + jr);
      ModShift(lb + rb, m, jl + jr);
    case Mul =>
      MulShift(lb, rb, m, jl, jr);
  }

  lemma MulShift(x: int, y: int, m: int, a: int, b: int)
    requires m > 0
    ensures ((x + m * a) * (y + m * b)) % m == (x * y) % m
  {
    var k := a * y + x * b + m * a * b;
    assert (x + m * a) * (y + m * b) == x * (y + m * b) + (m * a) * (y + m * b);
    assert x * (y + m * b) == x * y + m * (x * b);
    assert (m * a) * (y + m * b) == m * (a * y) + m * (m * a * b);
    assert m * k == m * (a * y) + m * (x * b) + m * (m * a * b);
    ModShift(x * y, m, k);
  }

  /** Rust's remainder is zero exactly when the divisor divides the value. */
  lemma RustRemZero(a: int, b: int)
    requires b != 0
    ensures RustRem(a, b) == 0 <==> a % Abs(b) == 0
  {
    var m := Abs(b);
    if a < 0 {
      if a % m == 0 {
        assert -a == m * -(a / m);
        ModShift(0, m, -(a / m));
      }
      if (-a) % m == 0 {
        assert a == m * -((-a) / m);
        ModShift(0, m, -((-a) / m));
      }
    }
  }

  /** Rust's remainder differs from the value by a multiple of the divisor's
      magnitude. */
  lemma RustRemShift(a: int, b: int)
    requires b != 0
    ensures RustRem(a, b) == a + Abs(b) * (if a >= 0 then -(a / Abs(b)) else (-a) / Abs(b))
  {
  }

  predicate Divides(d: int, n: int)
  {
    d != 0 && n % Abs(d) == 0
  }

  /** The magnitude of a multiple of m is a multiple of m. */
  lemma AbsOfMultiple(n: int, m: int)
    requires m > 0 && n % m == 0
    ensures Abs(n) == m * (if n < 0 then -(n / m) else n / m)
  {
    assert n == m * (n / m);
  }

  /** Rust's remainder by a multiple of d differs from the value by a multiple
      of d's magnitude. */
  lemma RemByMultiple(v: int, d: int, modBy: int) returns (t: int)
    requires modBy != 0 && Divides(d, modBy)
    ensures RustRem(v, modBy) == v + Abs(d) * t
  {
    var m, big := Abs(d), Abs(modBy);
    var j := if v >= 0 then -(v / big) else (-v) / big;
    RustRemShift(v, modBy);
    var kk := if modBy < 0 then -(modBy / m) else modBy / m;
    AbsOfMultiple(modBy, m);
    t := kk * j;
    assert big * j == m * t by {
      assert big * j == (m * kk) * j;
    }
  }

  /** Reducing a worry level modulo a multiple of the test's divisor does not
      change the test's outcome. */
  lemma ReductionKeepsTest(v: int, d: int, modBy: int)
    requires modBy != 0 && Divides(d, modBy)
    ensures RustRem(RustRem(v, modBy), d) == 0 <==> RustRem(v, d) == 0
  {
    var t := RemByMultiple(v, d, modBy);
    ModShift(v, Abs(d), t);
    RustRemZero(RustRem(v, modBy), d);
    RustRemZero(v, d);
  }

  /** `Monkey`. */
  datatype Monkey = Monkey(items: seq<int>, operation: Expression, divisible: int, divisibleIfTrue: nat, divisibleIfFalse: nat)

  /** The worry level an item has when it is thrown: the expression, the
      optional division by 3, then the reduction modulo `modBy`. */
  function Worry(m: Monkey, item: int, divide: bool, modBy: int): (r: int)
    requires modBy != 0
    ensures Abs(r) < Abs(modBy)
    ensures NonNegative(m.operation) && item >= 0 ==> 0 <= r < Abs(modBy)
  {
    var worry := EvalExpression(m.operation, item);
    var worry := if divide then RustDiv(worry, 3) else worry;
    RustRem(worry, modBy)
  }

  /** The monkey a worry level is thrown to.  A zero divisor, on which the
      source panics, counts as a failed test; `ValidTroop` rules it out. */
  function Target(m: Monkey, worry: int): (r: nat)
    ensures r == m.divisibleIfTrue || r == m.divisibleIfFalse
    ensures m.divisible != 0 && worry % Abs(m.divisible) == 0 ==> r == m.divisibleIfTrue
    ensures m.divisible != 0 && worry % Abs(m.divisible) != 0 ==> r == m.divisibleIfFalse
    ensures m.divisible == 0 ==> r == m.divisibleIfFalse
  {
    if m.divisible == 0 then m.divisibleIfFalse
    else
      RustRemZero(worry, m.divisible);
      if RustRem(worry, m.divisible) == 0 then m.divisibleIfTrue else m.divisibleIfFalse
  }

  /** `entry(k).or_default()` on the outbound map, as a value. */
  function Entry(outbound: map<nat, seq<int>>, k: nat): seq<int>
  {
    if k in outbound then outbound[k] else []
  }

  /** The outbound map after the monkey has thrown `items` in order. */
  function Route(m: Monkey, items: seq<int>, outbound: map<nat, seq<int>>, divide: bool, modBy: int): map<nat, seq<int>>
    requires modBy != 0
  {
    if |items| == 0 then outbound
    else
      var o := Route(m, items[..|items| - 1], outbound, divide, modBy);
      var worry := Worry(m, items[|items| - 1], divide, modBy);
      var t := Target(m, worry);
      o[t := Entry(o, t) + [worry]]
  }

  /** The worry levels, in throwing order, of the items of `items` whose test
      sends them to monkey k. */
  function Sent(m: Monkey, items: seq<int>, k: nat, divide: bool, modBy: int): seq<int>
    requires modBy != 0
  {
    if |items| == 0 then []
    else
      var worry := Worry(m, items[|items| - 1], divide, modBy);
      Sent(m, items[..|items| - 1], k, divide, modBy) + (if Target(m, worry) == k then [worry] else [])
  }

  /** Routing appends to each entry exactly what is sent to that monkey, and
      adds no entry but the two targets. */
  lemma {:induction false} RouteIsSent(m: Monkey, items: seq<int>, outbound: map<nat, seq<int>>, divide: bool, modBy: int, k: nat)
    requires modBy != 0
    ensures Entry(Route(m, items, outbound, divide, modBy), k) == Entry(outbound, k) + Sent(m, items, k, divide, modBy)
    ensures k in Route(m, items, outbound, divide, modBy) ==> k in outbound || k == m.divisibleIfTrue || k == m.divisibleIfFalse
  {
    if |items| > 0 {
      RouteIsSent(m, items[..|items| - 1], outbound, divide, modBy, k);
    }
  }

  /** Each thrown item's test decides its destination: what goes to the true
      target passed the test and what goes to the false target failed it. */
  lemma {:induction false} SentFollowsTest(m: Monkey, items: seq<int>, divide: bool, modBy: int)
    requires modBy != 0 && m.divisible != 0 && m.divisibleIfTrue != m.divisibleIfFalse
    ensures forall w :: w in Sent(m, items, m.divisibleIfTrue, divide, modBy) ==> RustRem(w, m.divisible) == 0
    ensures forall w :: w in Sent(m, items, m.divisibleIfFalse, divide, modBy) ==> RustRem(w, m.divisible) != 0
    ensures |Sent(m, items, m.divisibleIfTrue, divide, modBy)| + |Sent(m, items, m.divisibleIfFalse, divide, modBy)| == |items|
  {
    if |items| > 0 {
      SentFollowsTest(m, items[..|items| - 1], divide, modBy);
    }
  }

  /** `Monkey::process_turn` on the monkey at slot i: every item is thrown into
      the outbound map, the monkey's items are cleared, and the number thrown
      is returned. */
  method ProcessTurn(monkeys: array<Monkey>, i: nat, outbound: map<nat, seq<int>>, divide: bool, modBy: int)
    returns (inspected: nat, out: map<nat, seq<int>>)
    requires i < monkeys.Length && modBy != 0 && monkeys[i].divisible != 0
    modifies monkeys
    ensures monkeys[..] == old(monkeys[..])[i := old(monkeys[i]).(items := [])]
    ensures inspected == |old(monkeys[i].items)|
    ensures out == Route(old(monkeys[i]), old(monkeys[i].items), outbound, divide, modBy)
  {
    var monkey := monkeys[i];
    if |monkey.items| == 0 {
      return 0, outbound;
    }
    inspected := |monkey.items|;
    out := outbound;
    for k := 0 to |monkey.items|
      invariant out == Route(monkey, monkey.items[..k], outbound, divide, modBy)
    {
      assert monkey.items[..k + 1][..k] == monkey.items[..k];
      var item := EvalExpression(monkey.operation, monkey.items[k]);
      if divide {
        item := RustDiv(item, 3);
      }
      item := RustRem(item, modBy);
      if RustRem(item, monkey.divisible) == 0 {
        out := out[monkey.divisibleIfTrue := Entry(out, monkey.divisibleIfTrue) + [item]];
      } else {
        out := out[monkey.divisibleIfFalse := Entry(out, monkey.divisibleIfFalse) + [item]];
      }
    }
    assert monkey.items[..|monkey.items|] == monkey.items;
    monkeys[i] := monkey.(items := []);
  }

  /** Every monkey's divisor is non-zero and both its targets exist. */
  predicate ValidTroop(ms: seq<Monkey>)
  {
    forall i :: 0 <= i < |ms| ==> ms[i].divisible != 0 && ms[i].divisibleIfTrue < |ms| && ms[i].divisibleIfFalse < |ms|
  }

  /** Two monkeys that differ at most in the items they hold. */
  predicate SameRules(a: Monkey, b: Monkey)
  {
    a.operation == b.operation && a.divisible == b.divisible
    && a.divisibleIfTrue == b.divisibleIfTrue && a.divisibleIfFalse == b.divisibleIfFalse
  }

  /** Each monkey receives its outbound entry at the back of its items. */
  function Deliver(ms: seq<Monkey>, outbound: map<nat, seq<int>>): (r: seq<Monkey>)
    ensures |r| == |ms|
  {
    if |ms| == 0 then []
    else
      var n := |ms| - 1;
      Deliver(ms[..n], outbound) + [ms[n].(items := ms[n].items + Entry(outbound, n))]
  }

  /** Monkey j of the delivered troop is monkey j with its entry appended. */
  lemma {:induction false} DeliverAt(ms: seq<Monkey>, outbound: map<nat, seq<int>>, j: nat)
    requires j < |ms|
    ensures Deliver(ms, outbound)[j] == ms[j].(items := ms[j].items + Entry(outbound, j))
  {
    var n := |ms| - 1;
    if j < n {
      DeliverAt(ms[..n], outbound, j);
    }
  }

  lemma DeliverEach(ms: seq<Monkey>, outbound: map<nat, seq<int>>)
    ensures forall j :: 0 <= j < |ms| ==> Deliver(ms, outbound)[j] == ms[j].(items := ms[j].items + Entry(outbound, j))
  {
    forall j | 0 <= j < |ms| ensures Deliver(ms, outbound)[j] == ms[j].(items := ms[j].items + Entry(outbound, j)) {
      DeliverAt(ms, outbound, j);
    }
  }

  /** The drain of the outbound map in `process_round`; the map's iteration
      order is arbitrary, and the result does not depend on it. */
  method DrainInto(monkeys: array<Monkey>, outbound: map<nat, seq<int>>)
    requires forall k :: k in outbound ==> k < monkeys.Length
    modifies monkeys
    ensures monkeys[..] == Deliver(old(monkeys[..]), outbound)
  {
    ghost var start := monkeys[..];
    var remaining := outbound.Keys;
    PartiallyDelivered(start, outbound, remaining);
    while remaining != {}
      invariant remaining <= outbound.Keys
      invariant monkeys[..] == Delivered(start, outbound, remaining)
      decreases |remaining|
    {
      var k :| k in remaining;
      DeliverOne(start, outbound, remaining, k);
      monkeys[k] := monkeys[k].(items := monkeys[k].items + outbound[k]);
      remaining := remaining - {k};
    }
    PartiallyDelivered(start, outbound, {});
    DeliverEach(start, outbound);
  }

  /** The monkeys once every entry of `outbound` outside `remaining` is delivered. */
  ghost function Delivered(start: seq<Monkey>, outbound: map<nat, seq<int>>, remaining: set<nat>): (r: seq<Monkey>)
    ensures |r| == |start|
  {
    seq(|start|, j requires 0 <= j < |start| =>
      start[j].(items := start[j].items + (if j in outbound && j !in remaining then outbound[j] else [])))
  }

  lemma PartiallyDelivered(start: seq<Monkey>, outbound: map<nat, seq<int>>, remaining: set<nat>)
    ensures remaining == outbound.Keys ==> Delivered(start, outbound, remaining) == start
    ensures remaining == {} ==>
              forall j :: 0 <= j < |start| ==> Delivered(start, outbound, remaining)[j] == start[j].(items := start[j].items + Entry(outbound, j))
  {
    if remaining == outbound.Keys {
      forall j | 0 <= j < |start| ensures Delivered(start, outbound, remaining)[j] == start[j] {
        assert start[j].items + [] == start[j].items;
      }
    }
  }

  lemma DeliverOne(start: seq<Monkey>, outbound: map<nat, seq<int>>, remaining: set<nat>, k: nat)
    requires k in remaining && remaining <= outbound.Keys && k < |start|
    ensures Delivered(start, outbound, remaining - {k}) ==
            Delivered(start, outbound, remaining)[k := Delivered(start, outbound, remaining)[k].(
              items := Delivered(start, outbound, remaining)[k].items + outbound[k])]
  {
    var before := Delivered(start, outbound, remaining);
    var after := before[k := before[k].(items := before[k].items + outbound[k])];
    forall j | 0 <= j < |start|
      ensures Delivered(start, outbound, remaining - {k})[j] == after[j]
    {
      if j == k {
        assert start[k].items + [] == start[k].items;
      }
    }
  }

  /** The troop after monkey i's turn. */
  function Turn(ms: seq<Monkey>, i: nat, divide: bool, modBy: int): (r: seq<Monkey>)
    requires i < |ms| && modBy != 0
    ensures |r| == |ms|
  {
    var sent := Route(ms[i], ms[i].items, map[], divide, modBy);
    Deliver(ms[i := ms[i].(items := [])], sent)
  }

  /** A turn changes what the monkeys hold and nothing else about them. */
  lemma TurnKeepsRules(ms: seq<Monkey>, i: nat, divide: bool, modBy: int)
    requires i < |ms| && modBy != 0
    ensures forall j :: 0 <= j < |ms| ==> SameRules(Turn(ms, i, divide, modBy)[j], ms[j])
    ensures ValidTroop(ms) ==> ValidTroop(Turn(ms, i, divide, modBy))
  {
    DeliverEach(ms[i := ms[i].(items := [])], Route(ms[i], ms[i].items, map[], divide, modBy));
  }

  /** The turns of a round keep the troop valid. */
  lemma {:induction false} TurnsBeforeValid(ms: seq<Monkey>, j: nat, divide: bool, modBy: int)
    requires ValidTroop(ms) && j <= |ms| && modBy != 0
    ensures ValidTroop(TurnsBefore(ms, j, divide, modBy))
  {
    if j > 0 {
      TurnsBeforeValid(ms, j - 1, divide, modBy);
      TurnKeepsRules(TurnsBefore(ms, j - 1, divide, modBy), j - 1, divide, modBy);
    } else {
      assert TurnsBefore(ms, 0, divide, modBy) == ms;
    }
  }

  /** And so do any number of rounds. */
  lemma {:induction false} RoundsValid(ms: seq<Monkey>, r: nat, divide: bool, modBy: int)
    requires ValidTroop(ms) && modBy != 0
    ensures ValidTroop(Rounds(ms, r, divide, modBy))
  {
    if r > 0 {
      RoundsValid(ms, r - 1, divide, modBy);
      TurnsBeforeValid(Rounds(ms, r - 1, divide, modBy), |ms|, divide, modBy);
    } else {
      assert Rounds(ms, 0, divide, modBy) == ms;
    }
  }

  /** The troop after the turns of monkeys 0 .. j-1. */
  function TurnsBefore(ms: seq<Monkey>, j: nat, divide: bool, modBy: int): (r: seq<Monkey>)
    requires j <= |ms| && modBy != 0
    ensures |r| == |ms|
  {
    if j == 0 then ms else Turn(TurnsBefore(ms, j - 1, divide, modBy), j - 1, divide, modBy)
  }

  function Round(ms: seq<Monkey>, divide: bool, modBy: int): (r: seq<Monkey>)
    requires modBy != 0
    ensures |r| == |ms|
  {
    TurnsBefore(ms, |ms|, divide, modBy)
  }

  /** `inspections.entry(i).or_default()`, as a value. */
  function Count(inspections: map<nat, nat>, i: nat): nat
  {
    if i in inspections then inspections[i] else 0
  }

  /** `process_round`: each monkey in turn throws its items, which are then
      delivered; each monkey's inspection count grows by the number of items
      it held at its turn, and the outbound map is returned empty. */
  method ProcessRound(monkeys: array<Monkey>, inspections: map<nat, nat>, divide: bool, modBy: int)
    returns (newInspections: map<nat, nat>, outbound: map<nat, seq<int>>)
    requires ValidTroop(monkeys[..]) && modBy != 0
    modifies monkeys
    ensures monkeys[..] == Round(old(monkeys[..]), divide, modBy)
    ensures outbound == map[]
    ensures newInspections == Credit(inspections, RoundInspections(old(monkeys[..]), divide, modBy))
  {
    ghost var start := monkeys[..];
    ghost var perTurn: seq<nat> := [];
    outbound := map[];
    newInspections := inspections;
    assert TurnsBefore(start, 0, divide, modBy) == start;
    for i := 0 to monkeys.Length
      invariant monkeys[..] == TurnsBefore(start, i, divide, modBy)
      invariant outbound == map[]
      invariant perTurn == TurnCounts(start, i, divide, modBy)
      invariant newInspections == Credit(inspections, perTurn)
    {
      var inspectedItems;
      inspectedItems, outbound := TurnAndDrain(monkeys, start, i, outbound, divide, modBy);
      newInspections := AddInspections(newInspections, inspections, perTurn, i, inspectedItems);
      perTurn := perTurn + [inspectedItems];
    }
  }

  /** The count map after monkeys 0 .. |counts|-1 have been credited, in turn,
      with `counts`. */
  function Credit(inspections: map<nat, nat>, counts: seq<nat>): map<nat, nat>
  {
    if |counts| == 0 then inspections
    else
      var n := |counts| - 1;
      var m := Credit(inspections, counts[..n]);
      m[n := Count(m, n) + counts[n]]
  }

  /** `*inspections.entry(i).or_default() += inspected` as the next step of
      crediting a round's turns. */
  method AddInspections(current: map<nat, nat>, ghost inspections: map<nat, nat>, ghost counts: seq<nat>, i: nat, inspected: nat)
    returns (updated: map<nat, nat>)
    requires current == Credit(inspections, counts) && i == |counts|
    ensures updated == Credit(inspections, counts + [inspected])
  {
    CreditStep(inspections, counts, inspected);
    updated := current[i := Count(current, i) + inspected];
  }

  /** Crediting one more monkey updates only its entry. */
  lemma CreditStep(inspections: map<nat, nat>, counts: seq<nat>, c: nat)
    ensures Credit(inspections, counts + [c])
            == Credit(inspections, counts)[|counts| := Count(Credit(inspections, counts), |counts|) + c]
  {
    assert (counts + [c])[..|counts|] == counts;
  }

  /** Crediting adds keys 0 .. |counts|-1, adds each count to what was there
      (nothing counting as 0) and leaves every other entry alone. */
  lemma {:induction false} CreditMeans(inspections: map<nat, nat>, counts: seq<nat>)
    ensures forall j: nat :: j in Credit(inspections, counts) <==> j in inspections || j < |counts|
    ensures forall j :: 0 <= j < |counts| ==> Credit(inspections, counts)[j] == Count(inspections, j) + counts[j]
    ensures forall j :: j in inspections && j >= |counts| ==> Credit(inspections, counts)[j] == inspections[j]
  {
    if |counts| > 0 {
      var n := |counts| - 1;
      CreditMeans(inspections, counts[..n]);
    }
  }

  /** The body of the loop in `process_round`: monkey i's turn, then the drain
      of the outbound map into the monkeys' items; the troop goes from the state
      before turn i of the round that started at `start` to the state after it. */
  method TurnAndDrain(monkeys: array<Monkey>, ghost start: seq<Monkey>, i: nat, outbound: map<nat, seq<int>>,
                      divide: bool, modBy: int)
    returns (inspected: nat, drained: map<nat, seq<int>>)
    requires ValidTroop(start) && i < |start| && modBy != 0 && outbound == map[]
    requires monkeys[..] == TurnsBefore(start, i, divide, modBy)
    modifies monkeys
    ensures monkeys[..] == TurnsBefore(start, i + 1, divide, modBy)
    ensures inspected == |TurnsBefore(start, i, divide, modBy)[i].items| && drained == map[]
  {
    ghost var before := monkeys[..];
    TurnsBeforeValid(start, i, divide, modBy);
    var sent;
    inspected, sent := ProcessTurn(monkeys, i, outbound, divide, modBy);
    forall k | k in sent ensures k < monkeys.Length {
      RouteIsSent(before[i], before[i].items, map[], divide, modBy, k);
    }
    DrainInto(monkeys, sent);
    drained := map[];
  }

  /** The troop after r rounds. */
  function Rounds(ms: seq<Monkey>, r: nat, divide: bool, modBy: int): (res: seq<Monkey>)
    requires modBy != 0
    ensures |res| == |ms|
  {
    if r == 0 then ms else Round(Rounds(ms, r - 1, divide, modBy), divide, modBy)
  }

  /** How many items each monkey inspects during one round. */
  function RoundInspections(ms: seq<Monkey>, divide: bool, modBy: int): (c: seq<nat>)
    requires modBy != 0
    ensures |c| == |ms|
  {
    TurnCounts(ms, |ms|, divide, modBy)
  }

  /** The number of items monkeys 0 .. n-1 hold at their turns. */
  function TurnCounts(ms: seq<Monkey>, n: nat, divide: bool, modBy: int): (c: seq<nat>)
    requires n <= |ms| && modBy != 0
    ensures |c| == n
  {
    if n == 0 then [] else TurnCounts(ms, n - 1, divide, modBy) + [|TurnsBefore(ms, n - 1, divide, modBy)[n - 1].items|]
  }

  /** Monkey j inspects every item it holds when its turn comes. */
  lemma {:induction false} TurnCountsAt(ms: seq<Monkey>, n: nat, divide: bool, modBy: int, j: nat)
    requires j < n <= |ms| && modBy != 0
    ensures TurnCounts(ms, n, divide, modBy)[j] == |TurnsBefore(ms, j, divide, modBy)[j].items|
  {
    if j < n - 1 {
      TurnCountsAt(ms, n - 1, divide, modBy, j);
    }
  }

  /** The per-monkey inspection counts of each of the first r rounds. */
  function PerRound(ms: seq<Monkey>, r: nat, divide: bool, modBy: int): (p: seq<seq<nat>>)
    requires modBy != 0
    ensures |p| == r && forall k :: 0 <= k < r ==> |p[k]| == |ms|
  {
    if r == 0 then []
    else PerRound(ms, r - 1, divide, modBy) + [RoundInspections(Rounds(ms, r - 1, divide, modBy), divide, modBy)]
  }

  /** Element-wise sum. */
  function SumEach(a: seq<nat>, b: seq<nat>): (c: seq<nat>)
    requires |a| == |b|
    ensures |c| == |a|
  {
    seq(|a|, j requires 0 <= j < |a| => a[j] + b[j])
  }

  /** The sum, monkey by monkey, of the rounds' counts. */
  function Totals(p: seq<seq<nat>>, n: nat): (c: seq<nat>)
    requires forall k :: 0 <= k < |p| ==> |p[k]| == n
    ensures |c| == n
  {
    if |p| == 0 then seq(n, _ => 0) else SumEach(Totals(p[..|p| - 1], n), p[|p| - 1])
  }

  /** How many items each monkey inspects during the first r rounds. */
  function InspectionCounts(ms: seq<Monkey>, r: nat, divide: bool, modBy: int): (c: seq<nat>)
    requires modBy != 0
    ensures |c| == |ms|
  {
    Totals(PerRound(ms, r, divide, modBy), |ms|)
  }

  /** A further round adds to each monkey the items it holds at its turn of
      that round. */
  lemma InspectionCountsStep(ms: seq<Monkey>, r: nat, divide: bool, modBy: int, j: nat)
    requires modBy != 0 && j < |ms|
    ensures InspectionCounts(ms, r + 1, divide, modBy)[j]
            == InspectionCounts(ms, r, divide, modBy)[j] + |TurnsBefore(Rounds(ms, r, divide, modBy), j, divide, modBy)[j].items|
  {
    var p := PerRound(ms, r, divide, modBy);
    assert PerRound(ms, r + 1, divide, modBy)[..r] == p;
    TurnCountsAt(Rounds(ms, r, divide, modBy), |ms|, divide, modBy, j);
  }

  /** The count map after crediting the rounds' counts in order, starting empty. */
  function Accumulate(p: seq<seq<nat>>): map<nat, nat>
  {
    if |p| == 0 then map[] else Credit(Accumulate(p[..|p| - 1]), p[|p| - 1])
  }

  lemma AccumulateStep(p: seq<seq<nat>>, counts: seq<nat>)
    ensures Accumulate(p + [counts]) == Credit(Accumulate(p), counts)
  {
    assert (p + [counts])[..|p|] == p;
  }

  /** The count map holds the tallies `t`: no key beyond them, and each
      monkey's count (nothing counting as 0) is its tally. */
  predicate Tallies(m: map<nat, nat>, t: seq<nat>)
  {
    (forall j: nat :: j in m ==> j < |t|) && forall j :: 0 <= j < |t| ==> Count(m, j) == t[j]
  }

  /** Crediting a round's counts adds them to the tallies, and gives every
      monkey an entry. */
  lemma CreditTallies(m: map<nat, nat>, t: seq<nat>, counts: seq<nat>)
    requires Tallies(m, t) && |counts| == |t|
    ensures Tallies(Credit(m, counts), SumEach(t, counts))
    ensures forall j: nat :: j in Credit(m, counts) <==> j < |t|
  {
    CreditMeans(m, counts);
  }

  /** The accumulated map holds the totals, and once a round has been credited
      it has exactly one entry per monkey. */
  lemma {:induction false} AccumulateMeans(p: seq<seq<nat>>, n: nat)
    requires forall k :: 0 <= k < |p| ==> |p[k]| == n
    ensures Tallies(Accumulate(p), Totals(p, n))
    ensures |p| == 0 ==> Accumulate(p) == map[]
    ensures |p| > 0 ==> forall j: nat :: j in Accumulate(p) <==> j < n
  {
    if |p| > 0 {
      var q := p[..|p| - 1];
      AccumulateMeans(q, n);
      CreditTallies(Accumulate(q), Totals(q, n), p[|p| - 1]);
    }
  }

  /** The `for _ in 0..rounds` loop of `process_rounds`. */
  method RunRounds(troop: array<Monkey>, rounds: nat, divide: bool, modBy: int) returns (inspections: map<nat, nat>)
    requires ValidTroop(troop[..]) && modBy != 0
    modifies troop
    ensures troop[..] == Rounds(old(troop[..]), rounds, divide, modBy)
    ensures inspections == Accumulate(PerRound(old(troop[..]), rounds, divide, modBy))
  {
    ghost var start := troop[..];
    inspections := map[];
    assert Rounds(start, 0, divide, modBy) == start;
    for r := 0 to rounds
      invariant troop[..] == Rounds(start, r, divide, modBy)
      invariant inspections == Accumulate(PerRound(start, r, divide, modBy))
    {
      RoundsValid(start, r, divide, modBy);
      AccumulateStep(PerRound(start, r, divide, modBy), RoundInspections(troop[..], divide, modBy));
      var outbound;
      inspections, outbound := ProcessRound(troop, inspections, divide, modBy);
    }
  }

  /** `inspections.values()`, taken in key order over the keys below n. */
  function MapValues(m: map<nat, nat>, n: nat): seq<nat>
  {
    if n == 0 then [] else MapValues(m, n - 1) + (if n - 1 in m then [m[n - 1]] else [])
  }

  lemma {:induction false} MapValuesEmpty(n: nat)
    ensures MapValues(map[], n) == []
  {
    if n > 0 {
      MapValuesEmpty(n - 1);
    }
  }

  /** A map holding the tallies `t` with one entry per monkey yields `t`. */
  lemma MapValuesTallies(m: map<nat, nat>, t: seq<nat>)
    requires Tallies(m, t) && forall j: nat :: j in m <==> j < |t|
    ensures MapValues(m, |t|) == t
  {
    MapValuesPrefix(m, t, |t|);
  }

  lemma {:induction false} MapValuesPrefix(m: map<nat, nat>, t: seq<nat>, n: nat)
    requires Tallies(m, t) && n <= |t| && forall j: nat :: j in m <==> j < |t|
    ensures MapValues(m, n) == t[..n]
  {
    if n > 0 {
      MapValuesPrefix(m, t, n - 1);
      assert Count(m, n - 1) == m[n - 1];
      assert t[..n] == t[..n - 1] + [t[n - 1]];
    }
  }

  /** The product of the divisors, the `mod_by` of `process_rounds`. */
  function DivisorProduct(ms: seq<Monkey>): int
  {
    if |ms| == 0 then 1 else DivisorProduct(ms[..|ms| - 1]) * ms[|ms| - 1].divisible
  }

  /** The product is non-zero and a multiple of every divisor, so reducing by
      it never changes a monkey's test. */
  lemma {:induction false} DivisorProductDivides(ms: seq<Monkey>)
    requires forall i :: 0 <= i < |ms| ==> ms[i].divisible != 0
    ensures DivisorProduct(ms) != 0
    ensures forall i :: 0 <= i < |ms| ==> Divides(ms[i].divisible, DivisorProduct(ms))
  {
    if |ms| > 0 {
      var n := |ms| - 1;
      var p := DivisorProduct(ms[..n]);
      var d := ms[n].divisible;
      DivisorProductDivides(ms[..n]);
      NonzeroProduct(p, d);
      forall i | 0 <= i < n ensures Divides(ms[i].divisible, p * d) {
        assert ms[..n][i] == ms[i];
        DividesMul(ms[i].divisible, p, d);
      }
      DividesSelf(p, d);
    }
  }

  lemma NonzeroProduct(p: int, d: int)
    requires p != 0 && d != 0
    ensures p * d != 0
  {
  }

  lemma DividesMul(d: int, p: int, e: int)
    requires Divides(d, p)
    ensures Divides(d, p * e)
  {
    var m := Abs(d);
    var q := p / m;
    assert p == m * q;
    assert p * e == m * (q * e);
    ModShift(0, m, q * e);
  }

  lemma DividesSelf(p: int, d: int)
    requires d != 0
    ensures Divides(d, p * d)
  {
    var m := Abs(d);
    var q := if d < 0 then -p else p;
    assert p * d == m * q;
    ModShift(0, m, q);
  }

  /** `process_rounds`: `mod_by` is the product of the divisors; after the
      rounds the answer is the product of the two largest inspection counts
      (1 when no round ran and the count map is empty). */
  method ProcessRounds(monkeys: seq<Monkey>, rounds: nat, divide: bool) returns (business: nat)
    requires ValidTroop(monkeys)
    ensures DivisorProduct(monkeys) != 0
    ensures business == if rounds == 0 then 1
                        else TopTwoProduct(InspectionCounts(monkeys, rounds, divide, DivisorProduct(monkeys)))
  {
    var modBy := DivisorProduct(monkeys);
    DivisorProductDivides(monkeys);
    var troop := new Monkey[|monkeys|](i requires 0 <= i < |monkeys| => monkeys[i]);
    assert troop[..] == monkeys;
    var inspections := RunRounds(troop, rounds, divide, modBy);
    ghost var p := PerRound(monkeys, rounds, divide, modBy);
    AccumulateMeans(p, |monkeys|);
    var values := MapValues(inspections, troop.Length);
    if rounds == 0 {
      MapValuesEmpty(troop.Length);
    } else {
      MapValuesTallies(inspections, Totals(p, |monkeys|));
    }
    business := TopTwoProduct(values);
  }

  /** The total number of items the troop holds. */
  function ItemsBelow(ms: seq<Monkey>, n: nat): nat
    requires n <= |ms|
  {
    if n == 0 then 0 else ItemsBelow(ms, n - 1) + |ms[n - 1].items|
  }

  function TotalItems(ms: seq<Monkey>): nat
  {
    ItemsBelow(ms, |ms|)
  }

  function SentBelow(outbound: map<nat, seq<int>>, n: nat): nat
  {
    if n == 0 then 0 else SentBelow(outbound, n - 1) + |Entry(outbound, n - 1)|
  }

  lemma {:induction false} DeliverTotal(ms: seq<Monkey>, outbound: map<nat, seq<int>>, n: nat)
    requires n <= |ms|
    ensures ItemsBelow(Deliver(ms, outbound), n) == ItemsBelow(ms, n) + SentBelow(outbound, n)
  {
    if n > 0 {
      DeliverTotal(ms, outbound, n - 1);
      DeliverAt(ms, outbound, n - 1);
    }
  }

  lemma {:induction false} ClearTotal(ms: seq<Monkey>, i: nat, n: nat)
    requires i < |ms| && n <= |ms|
    ensures ItemsBelow(ms[i := ms[i].(items := [])], n) + (if i < n then |ms[i].items| else 0) == ItemsBelow(ms, n)
  {
    if n > 0 {
      ClearTotal(ms, i, n - 1);
    }
  }

  lemma {:induction false} SentBelowUpdate(outbound: map<nat, seq<int>>, t: nat, w: int, n: nat)
    ensures SentBelow(outbound[t := Entry(outbound, t) + [w]], n) == SentBelow(outbound, n) + (if t < n then 1 else 0)
  {
    if n > 0 {
      SentBelowUpdate(outbound, t, w, n - 1);
    }
  }

  /** When both targets are below n, everything thrown lands below n. */
  lemma {:induction false} RouteTotal(m: Monkey, items: seq<int>, divide: bool, modBy: int, n: nat)
    requires modBy != 0 && m.divisibleIfTrue < n && m.divisibleIfFalse < n
    ensures SentBelow(Route(m, items, map[], divide, modBy), n) == |items|
  {
    if |items| == 0 {
      SentBelowEmpty(n);
    } else {
      var o := Route(m, items[..|items| - 1], map[], divide, modBy);
      var worry := Worry(m, items[|items| - 1], divide, modBy);
      RouteTotal(m, items[..|items| - 1], divide, modBy, n);
      SentBelowUpdate(o, Target(m, worry), worry, n);
    }
  }

  lemma {:induction false} SentBelowEmpty(n: nat)
    ensures SentBelow(map[], n) == 0
  {
    if n > 0 {
      SentBelowEmpty(n - 1);
    }
  }

  /** A turn moves items between monkeys and neither loses nor creates any. */
  lemma TurnPreservesItems(ms: seq<Monkey>, i: nat, divide: bool, modBy: int)
    requires ValidTroop(ms) && i < |ms| && modBy != 0
    ensures TotalItems(Turn(ms, i, divide, modBy)) == TotalItems(ms)
  {
    var cleared := ms[i := ms[i].(items := [])];
    var sent := Route(ms[i], ms[i].items, map[], divide, modBy);
    DeliverTotal(cleared, sent, |ms|);
    ClearTotal(ms, i, |ms|);
    RouteTotal(ms[i], ms[i].items, divide, modBy, |ms|);
  }

  lemma {:induction false} TurnsBeforePreservesItems(ms: seq<Monkey>, j: nat, divide: bool, modBy: int)
    requires ValidTroop(ms) && j <= |ms| && modBy != 0
    ensures TotalItems(TurnsBefore(ms, j, divide, modBy)) == TotalItems(ms)
  {
    if j > 0 {
      TurnsBeforePreservesItems(ms, j - 1, divide, modBy);
      TurnsBeforeValid(ms, j - 1, divide, modBy);
      NextTurnPreservesItems(ms, j, divide, modBy);
    } else {
      assert TurnsBefore(ms, 0, divide, modBy) == ms;
    }
  }

  lemma NextTurnPreservesItems(ms: seq<Monkey>, j: nat, divide: bool, modBy: int)
    requires 0 < j <= |ms| && modBy != 0
    requires ValidTroop(TurnsBefore(ms, j - 1, divide, modBy))
    ensures TotalItems(TurnsBefore(ms, j, divide, modBy)) == TotalItems(TurnsBefore(ms, j - 1, divide, modBy))
  {
    TurnPreservesItems(TurnsBefore(ms, j - 1, divide, modBy), j - 1, divide, modBy);
  }

  /** Any number of rounds keeps the number of items the troop holds. */
  lemma RoundPreservesItems(ms: seq<Monkey>, divide: bool, modBy: int)
    requires ValidTroop(ms) && modBy != 0
    ensures TotalItems(Round(ms, divide, modBy)) == TotalItems(ms)
  {
    TurnsBeforePreservesItems(ms, |ms|, divide, modBy);
  }

  lemma {:induction false} RoundsPreserveItems(ms: seq<Monkey>, r: nat, divide: bool, modBy: int)
    requires ValidTroop(ms) && modBy != 0
    ensures TotalItems(Rounds(ms, r, divide, modBy)) == TotalItems(ms)
  {
    if r > 0 {
      RoundsPreserveItems(ms, r - 1, divide, modBy);
      RoundsValid(ms, r - 1, divide, modBy);
      RoundPreservesItems(Rounds(ms, r - 1, divide, modBy), divide, modBy);
    } else {
      assert Rounds(ms, 0, divide, modBy) == ms;
    }
  }

  /** `parse_op_value`: "old", or a number; `None` where the source panics. */
  function ParseOpValue(s: string): (r: Option<OperationValue>)
    ensures r == Some(Old) <==> s == "old"
    ensures r.Some? && r.value.Int? <==> s != "old" && ParseInt(s).Some?
    ensures r.Some? && r.value.Int? ==> r.value.i == ParseInt(s).value
  {
    if s == "old" then Some(Old)
    else
      match ParseInt(s)
      case Some(i) => Some(Int(i))
      case None => None
  }

  function OperandPair(pieces: seq<string>, op: Operator): Option<Expression>
  {
    if |pieces| != 2 then None
    else
      match (ParseOpValue(pieces[0]), ParseOpValue(pieces[1]))
      case (Some(l), Some(r)) => Some(Expression(l, op, r))
      case _ => None
  }

  /** `parse_operation`: the text after " = " is split at " + " when it contains
      a '+', and at " * " otherwise; it must split into exactly two operands. */
  function ParseOperation(line: string): Option<Expression>
  {
    match SplitOnceStr(line, " = ")
    case None => None
    case Some((_, expr)) => ParseExpression(expr)
  }

  /** The right-hand side: a '+' anywhere makes it a sum, otherwise a product. */
  function ParseExpression(expr: string): Option<Expression>
  {
    if '+' in expr then OperandPair(SplitStr(expr, " + "), Add)
    else OperandPair(SplitStr(expr, " * "), Mul)
  }

  /** How an operand is written in the input. */
  function OperandText(v: OperationValue): (s: string)
    ensures ' ' !in s && '+' !in s
  {
    match v
    case Old => "old"
    case Int(i) =>
      if i >= 0 then NatToString(i)
      else
        var digits := NatToString(-i);
        assert forall k :: 0 <= k < |digits| ==> IsDigit(digits[k]);
        "-" + digits
  }

  function OperatorText(op: Operator): string
  {
    match op
    case Add => " + "
    case Mul => " * "
  }

  /** The operation line as the input writes it. */
  function OperationText(e: Expression): string
  {
    "new" + " = " + (OperandText(e.left) + OperatorText(e.op) + OperandText(e.right))
  }

  lemma ParseOperandText(v: OperationValue)
    ensures ParseOpValue(OperandText(v)) == Some(v)
  {
    match v
    case Old =>
    case Int(i) =>
      if i >= 0 {
        ParseNatToString(i);
        assert OperandText(v)[0] != 'o';
      } else {
        ParseNegative(-i);
        assert OperandText(v)[0] == '-';
      }
  }

  /** `parse_operation` reads back every operation line. */
  lemma ParseOperationRoundTrip(e: Expression)
    ensures ParseOperation(OperationText(e)) == Some(e)
  {
    var expr := OperandText(e.left) + OperatorText(e.op) + OperandText(e.right);
    SplitOnceAfterWord("new", " = ", expr);
    ParseExpressionText(e);
  }

  lemma ParseExpressionText(e: Expression)
    ensures ParseExpression(OperandText(e.left) + OperatorText(e.op) + OperandText(e.right)) == Some(e)
  {
    var l, r := OperandText(e.left), OperandText(e.right);
    var expr := l + OperatorText(e.op) + r;
    SplitJoinedWords(l, OperatorText(e.op), r);
    ParseOperandText(e.left);
    ParseOperandText(e.right);
    if e.op.Add? {
      assert expr[|l| + 1] == '+';
    } else {
      assert '+' !in expr;
    }
  }
}
