/** src/day8.rs: a grid of tree heights; which trees can be seen from outside
    the grid, and each tree's scenic score (the product of its four viewing
    distances).  The map functions are modelled on in-grid coordinates, the only
    ones the part loops pass. */
module Day8 {
  import opened Arith

  /** `Map`: row-major heights. */
  datatype Map = Map(width: nat, height: nat, data: seq<nat>)

  predicate Valid(m: Map)
  {
    |m.data| == m.width * m.height
  }

  predicate InGrid(m: Map, x: nat, y: nat)
  {
    x < m.width && y < m.height
  }

  lemma InGridIndex(m: Map, x: nat, y: nat)
    requires Valid(m) && InGrid(m, x, y)
    ensures y * m.width + x < |m.data|
  {
    assert y * m.width + x < (y + 1) * m.width;
    MulLeq(y + 1, m.height, m.width);
  }

  /** `Map::get`. */
  function Get(m: Map, x: nat, y: nat): (h: nat)
    requires Valid(m) && InGrid(m, x, y)
    ensures h in m.data
  {
    InGridIndex(m, x, y);
    m.data[y * m.width + x]
  }

  /** `Map::is_edge`. */
  predicate IsEdge(m: Map, x: nat, y: nat)
    requires InGrid(m, x, y)
    ensures m.width <= 2 || m.height <= 2 ==> IsEdge(m, x, y)
    ensures !IsEdge(m, x, y) ==> 0 < x < m.width - 1 && 0 < y < m.height - 1
  {
    x == 0 || x == m.width - 1 || y == 0 || y == m.height - 1
  }

  /** `Map::is_visible`: an edge tree, or one strictly taller than every tree in
      one of the four directions. */
  predicate IsVisible(m: Map, x: nat, y: nat)
    requires Valid(m) && InGrid(m, x, y)
    ensures IsEdge(m, x, y) ==> IsVisible(m, x, y)
    ensures IsVisible(m, x, y) && !IsEdge(m, x, y) ==>
              || Get(m, x - 1, y) < Get(m, x, y)
              || Get(m, x + 1, y) < Get(m, x, y)
              || Get(m, x, y - 1) < Get(m, x, y)
              || Get(m, x, y + 1) < Get(m, x, y)
  {
    IsEdge(m, x, y) ||
    var value := Get(m, x, y);
    || (forall i :: 0 <= i < x ==> Get(m, i, y) < value)
    || (forall i :: x + 1 <= i < m.width ==> Get(m, i, y) < value)
    || (forall i :: 0 <= i < y ==> Get(m, x, i) < value)
    || (forall i :: y + 1 <= i < m.height ==> Get(m, x, i) < value)
  }

  // ---- viewing distances ----

  /** Every tree along a line is lower than `value`. */
  predicate AllLower(line: seq<int>, value: int)
  {
    forall k :: 0 <= k < |line| ==> line[k] < value
  }

  /** The trees seen in one direction, nearest first. */
  function LeftLine(m: Map, x: nat, y: nat): (r: seq<int>)
    requires Valid(m) && InGrid(m, x, y)
    ensures |r| == x
  {
    seq(x, k requires 0 <= k < x => Get(m, x - 1 - k, y))
  }

  function RightLine(m: Map, x: nat, y: nat): (r: seq<int>)
    requires Valid(m) && InGrid(m, x, y)
    ensures |r| == m.width - x - 1
  {
    var n: nat := m.width - x - 1;
    seq(n, k requires 0 <= k < n => Get(m, x + 1 + k, y))
  }

  function UpLine(m: Map, x: nat, y: nat): (r: seq<int>)
    requires Valid(m) && InGrid(m, x, y)
    ensures |r| == y
  {
    seq(y, k requires 0 <= k < y => Get(m, x, y - 1 - k))
  }

  function DownLine(m: Map, x: nat, y: nat): (r: seq<int>)
    requires Valid(m) && InGrid(m, x, y)
    ensures |r| == m.height - y - 1
  {
    var n: nat := m.height - y - 1;
    seq(n, k requires 0 <= k < n => Get(m, x, y + 1 + k))
  }

  /** A direction's line is all lower exactly when every tree between the tree
      and that edge is lower. */
  lemma LinesAllLower(m: Map, x: nat, y: nat, value: int)
    requires Valid(m) && InGrid(m, x, y)
    ensures AllLower(LeftLine(m, x, y), value) <==> forall i :: 0 <= i < x ==> Get(m, i, y) < value
    ensures AllLower(RightLine(m, x, y), value) <==> forall i :: x + 1 <= i < m.width ==> Get(m, i, y) < value
    ensures AllLower(UpLine(m, x, y), value) <==> forall i :: 0 <= i < y ==> Get(m, x, i) < value
    ensures AllLower(DownLine(m, x, y), value) <==> forall i :: y + 1 <= i < m.height ==> Get(m, x, i) < value
  {
    var l, r, u, d := LeftLine(m, x, y), RightLine(m, x, y), UpLine(m, x, y), DownLine(m, x, y);
    if AllLower(l, value) {
      forall i | 0 <= i < x ensures Get(m, i, y) < value { assert l[x - 1 - i] == Get(m, i, y); }
    }
    if AllLower(r, value) {
      forall i | x + 1 <= i < m.width ensures Get(m, i, y) < value { assert r[i - x - 1] == Get(m, i, y); }
    }
    if AllLower(u, value) {
      forall i | 0 <= i < y ensures Get(m, x, i) < value { assert u[y - 1 - i] == Get(m, x, i); }
    }
    if AllLower(d, value) {
      forall i | y + 1 <= i < m.height ensures Get(m, x, i) < value { assert d[i - y - 1] == Get(m, x, i); }
    }
  }

  /** A tree is visible exactly when it is on the edge or every tree of one of
      its four lines of sight is lower. */
  lemma IsVisibleMeans(m: Map, x: nat, y: nat)
    requires Valid(m) && InGrid(m, x, y)
    ensures IsVisible(m, x, y) <==>
              || IsEdge(m, x, y)
              || AllLower(LeftLine(m, x, y), Get(m, x, y))
              || AllLower(RightLine(m, x, y), Get(m, x, y))
              || AllLower(UpLine(m, x, y), Get(m, x, y))
              || AllLower(DownLine(m, x, y), Get(m, x, y))
  {
    LinesAllLower(m, x, y, Get(m, x, y));
  }

  /** The number of trees seen along a line from a tree of height `value`: up
      to and including the first one at least as tall, or all of them. */
  function ViewDistance(line: seq<int>, value: int): (d: nat)
    ensures d <= |line| && (|line| > 0 ==> 1 <= d)
  {
    if |line| == 0 then 0
    else if line[0] >= value then 1
    else 1 + ViewDistance(line[1..], value)
  }

  lemma ViewDistanceSuffix(line: seq<int>, value: int, k: nat)
    requires k < |line|
    ensures ViewDistance(line[k..], value) ==
            if line[k] >= value then 1 else 1 + ViewDistance(line[k + 1..], value)
  {
    assert line[k..][1..] == line[k + 1..];
  }

  /** A viewing distance is at least 1 and at most the line's length when the
      line is not empty; every tree before the stopping one is lower; and the
      count stops at a tree at least as tall unless it reaches the end. */
  lemma {:induction false} ViewDistanceStops(line: seq<int>, value: int)
    ensures var d := ViewDistance(line, value);
            && d <= |line|
            && (|line| > 0 ==> 1 <= d)
            && (forall k :: 0 <= k < d - 1 ==> line[k] < value)
            && (d == |line| || line[d - 1] >= value)
  {
    if |line| > 0 && line[0] < value {
      ViewDistanceStops(line[1..], value);
    }
  }

  /** When every tree along the line is lower, the whole line is seen. */
  lemma {:induction false} ViewDistanceAllLower(line: seq<int>, value: int)
    requires forall k :: 0 <= k < |line| ==> line[k] < value
    ensures ViewDistance(line, value) == |line|
  {
    if |line| > 0 {
      ViewDistanceAllLower(line[1..], value);
    }
  }

  /** The score `measure_viewing_distance` computes: 0 on the edge. */
  function ScenicScore(m: Map, x: nat, y: nat): (score: nat)
    requires Valid(m) && InGrid(m, x, y)
    ensures score == 0 <==> IsEdge(m, x, y)
  {
    if IsEdge(m, x, y) then 0
    else
      var value := Get(m, x, y);
      var l := ViewDistance(LeftLine(m, x, y), value);
      var r := ViewDistance(RightLine(m, x, y), value);
      var u := ViewDistance(UpLine(m, x, y), value);
      var d := ViewDistance(DownLine(m, x, y), value);
      Product(l, r, u, d)
  }

  /** The product of the four viewing distances; positive when all four are. */
  function Product(a: nat, b: nat, c: nat, d: nat): (p: nat)
    ensures a >= 1 && b >= 1 && c >= 1 && d >= 1 ==> p >= 1
  {
    PositiveProduct(a, b, c, d);
    a * b * c * d
  }

  lemma PositiveProduct(a: nat, b: nat, c: nat, d: nat)
    ensures a >= 1 && b >= 1 && c >= 1 && d >= 1 ==> a * b * c * d >= 1
  {
    if a >= 1 && b >= 1 && c >= 1 && d >= 1 {
      MulLeq(1, a, b);
      MulLeq(1, a * b, c);
      MulLeq(1, a * b * c, d);
    }
  }

  /** The first loop of `measure_viewing_distance`: trees counted leftwards
      from x, stopping after the first one at least `value` tall. */
  method CountToLeft(m: Map, x: nat, y: nat, value: nat) returns (visibleToLeft: nat)
    requires Valid(m) && InGrid(m, x, y)
    ensures visibleToLeft == ViewDistance(LeftLine(m, x, y), value)
  {
    ghost var line := LeftLine(m, x, y);
    visibleToLeft := 0;
    var i := x;
    while i > 0
      invariant 0 <= i <= x && visibleToLeft == x - i
      invariant ViewDistance(line, value) == visibleToLeft + ViewDistance(line[x - i..], value)
    {
      ViewDistanceSuffix(line, value, x - i);
      assert line[x - i] == Get(m, i - 1, y);
      i := i - 1;
      var cellValue := Get(m, i, y);
      visibleToLeft := visibleToLeft + 1;
      if cellValue >= value {
        break;
      }
    }
  }

  /** The second loop: rightwards. */
  method CountToRight(m: Map, x: nat, y: nat, value: nat) returns (visibleToRight: nat)
    requires Valid(m) && InGrid(m, x, y)
    ensures visibleToRight == ViewDistance(RightLine(m, x, y), value)
  {
    ghost var line := RightLine(m, x, y);
    visibleToRight := 0;
    for i := x + 1 to m.width
      invariant visibleToRight == i - x - 1
      invariant ViewDistance(line, value) == visibleToRight + ViewDistance(line[i - x - 1..], value)
    {
      ViewDistanceSuffix(line, value, i - x - 1);
      assert line[i - x - 1] == Get(m, i, y);
      var cellValue := Get(m, i, y);
      visibleToRight := visibleToRight + 1;
      if cellValue >= value {
        break;
      }
    }
  }

  /** The third loop: upwards. */
  method CountToTop(m: Map, x: nat, y: nat, value: nat) returns (visibleToTop: nat)
    requires Valid(m) && InGrid(m, x, y)
    ensures visibleToTop == ViewDistance(UpLine(m, x, y), value)
  {
    ghost var line := UpLine(m, x, y);
    visibleToTop := 0;
    var i := y;
    while i > 0
      invariant 0 <= i <= y && visibleToTop == y - i
      invariant ViewDistance(line, value) == visibleToTop + ViewDistance(line[y - i..], value)
    {
      ViewDistanceSuffix(line, value, y - i);
      assert line[y - i] == Get(m, x, i - 1);
      i := i - 1;
      var cellValue := Get(m, x, i);
      visibleToTop := visibleToTop + 1;
      if cellValue >= value {
        break;
      }
    }
  }

  /** The fourth loop: downwards. */
  method CountToBottom(m: Map, x: nat, y: nat, value: nat) returns (visibleToBottom: nat)
    requires Valid(m) && InGrid(m, x, y)
    ensures visibleToBottom == ViewDistance(DownLine(m, x, y), value)
  {
    ghost var line := DownLine(m, x, y);
    visibleToBottom := 0;
    for i := y + 1 to m.height
      invariant visibleToBottom == i - y - 1
      invariant ViewDistance(line, value) == visibleToBottom + ViewDistance(line[i - y - 1..], value)
    {
      ViewDistanceSuffix(line, value, i - y - 1);
      assert line[i - y - 1] == Get(m, x, i);
      var cellValue := Get(m, x, i);
      visibleToBottom := visibleToBottom + 1;
      if cellValue >= value {
        break;
      }
    }
  }

  /** `Map::measure_viewing_distance`: 0 on the edge, otherwise the product of
      the four counts. */
  method MeasureViewingDistance(m: Map, x: nat, y: nat) returns (score: nat)
    requires Valid(m) && InGrid(m, x, y)
    ensures score == ScenicScore(m, x, y)
  {
    if IsEdge(m, x, y) {
      return 0;
    }
    var value := Get(m, x, y);
    var visibleToLeft := CountToLeft(m, x, y, value);
    var visibleToRight := CountToRight(m, x, y, value);
    var visibleToTop := CountToTop(m, x, y, value);
    var visibleToBottom := CountToBottom(m, x, y, value);
    score := Product(visibleToLeft, visibleToRight, visibleToTop, visibleToBottom);
  }

  /** An edge tree is visible and scores 0. */
  lemma EdgeTrees(m: Map, x: nat, y: nat)
    requires Valid(m) && InGrid(m, x, y) && IsEdge(m, x, y)
    ensures IsVisible(m, x, y) && ScenicScore(m, x, y) == 0
  {
  }

  /** An interior tree sees between 1 tree and the distance to the edge in each
      direction, so its score is at least 1. */
  lemma InteriorDistances(m: Map, x: nat, y: nat)
    requires Valid(m) && InGrid(m, x, y) && !IsEdge(m, x, y)
    ensures 1 <= ViewDistance(LeftLine(m, x, y), Get(m, x, y)) <= x
    ensures 1 <= ViewDistance(RightLine(m, x, y), Get(m, x, y)) <= m.width - x - 1
    ensures 1 <= ViewDistance(UpLine(m, x, y), Get(m, x, y)) <= y
    ensures 1 <= ViewDistance(DownLine(m, x, y), Get(m, x, y)) <= m.height - y - 1
    ensures ScenicScore(m, x, y) >= 1
  {
    var v := Get(m, x, y);
    ViewDistanceStops(LeftLine(m, x, y), v);
    ViewDistanceStops(RightLine(m, x, y), v);
    ViewDistanceStops(UpLine(m, x, y), v);
    ViewDistanceStops(DownLine(m, x, y), v);
    var a, b, c, d := ViewDistance(LeftLine(m, x, y), v), ViewDistance(RightLine(m, x, y), v),
                      ViewDistance(UpLine(m, x, y), v), ViewDistance(DownLine(m, x, y), v);
    assert a * b >= 1 by { MulLeq(1, a, b); }
    assert a * b * c >= 1 by { MulLeq(1, a * b, c); }
    assert a * b * c * d >= 1 by { MulLeq(1, a * b * c, d); }
  }

  /** A tree visible from the left sees every tree to its left, and one visible
      from the right every tree to its right; so for the other two directions. */
  lemma VisibleSeesToTheEdge(m: Map, x: nat, y: nat)
    requires Valid(m) && InGrid(m, x, y)
    ensures var v := Get(m, x, y);
            && ((forall i :: 0 <= i < x ==> Get(m, i, y) < v) ==> ViewDistance(LeftLine(m, x, y), v) == x)
            && ((forall i :: x + 1 <= i < m.width ==> Get(m, i, y) < v) ==> ViewDistance(RightLine(m, x, y), v) == m.width - x - 1)
            && ((forall i :: 0 <= i < y ==> Get(m, x, i) < v) ==> ViewDistance(UpLine(m, x, y), v) == y)
            && ((forall i :: y + 1 <= i < m.height ==> Get(m, x, i) < v) ==> ViewDistance(DownLine(m, x, y), v) == m.height - y - 1)
  {
    var v := Get(m, x, y);
    if forall i :: 0 <= i < x ==> Get(m, i, y) < v {
      ViewDistanceAllLower(LeftLine(m, x, y), v);
    }
    if forall i :: x + 1 <= i < m.width ==> Get(m, i, y) < v {
      ViewDistanceAllLower(RightLine(m, x, y), v);
    }
    if forall i :: 0 <= i < y ==> Get(m, x, i) < v {
      ViewDistanceAllLower(UpLine(m, x, y), v);
    }
    if forall i :: y + 1 <= i < m.height ==> Get(m, x, i) < v {
      ViewDistanceAllLower(DownLine(m, x, y), v);
    }
  }

  // ---- the part loops ----

  /** Visible trees among the first n of row y. */
  function RowVisible(m: Map, y: nat, n: nat): (c: nat)
    requires Valid(m) && y < m.height && n <= m.width
    ensures c <= n
  {
    if n == 0 then 0 else RowVisible(m, y, n - 1) + (if IsVisible(m, n - 1, y) then 1 else 0)
  }

  /** Visible trees in the first `rows` rows. */
  function GridVisible(m: Map, rows: nat): (c: nat)
    requires Valid(m) && rows <= m.height
  {
    if rows == 0 then 0 else GridVisible(m, rows - 1) + RowVisible(m, rows - 1, m.width)
  }

  /** The visible count is at most the number of trees. */
  lemma {:induction false} GridVisibleBound(m: Map, rows: nat)
    requires Valid(m) && rows <= m.height
    ensures GridVisible(m, rows) <= rows * m.width
  {
    if rows > 0 {
      GridVisibleBound(m, rows - 1);
      assert rows * m.width == (rows - 1) * m.width + m.width;
    }
  }

  /** No more trees are visible than there are trees. */
  lemma VisibleAtMostTrees(m: Map)
    requires Valid(m)
    ensures GridVisible(m, m.height) <= |m.data|
  {
    GridVisibleBound(m, m.height);
  }

  /** `day8a`: the number of visible trees. */
  method Day8a(m: Map) returns (visible: nat)
    requires Valid(m)
    ensures visible == GridVisible(m, m.height)
    ensures visible <= |m.data|
  {
    visible := 0;
    for y := 0 to m.height
      invariant visible == GridVisible(m, y)
    {
      for x := 0 to m.width
        invariant visible == GridVisible(m, y) + RowVisible(m, y, x)
      {
        assert RowVisible(m, y, x + 1) == RowVisible(m, y, x) + (if IsVisible(m, x, y) then 1 else 0);
        if IsVisible(m, x, y) {
          visible := visible + 1;
        }
      }
      assert GridVisible(m, y + 1) == GridVisible(m, y) + RowVisible(m, y, m.width);
    }
    VisibleAtMostTrees(m);
  }

  /** `day8b`: the highest scenic score (0 for an empty grid). */
  method Day8b(m: Map) returns (best: nat)
    requires Valid(m)
    ensures forall x: nat, y: nat :: InGrid(m, x, y) ==> ScenicScore(m, x, y) <= best
    ensures best == 0 || exists x: nat, y: nat :: InGrid(m, x, y) && best == ScenicScore(m, x, y)
  {
    best := 0;
    for y := 0 to m.height
      invariant forall x': nat, y': nat :: x' < m.width && y' < y ==> ScenicScore(m, x', y') <= best
      invariant best == 0 || exists x': nat, y': nat :: InGrid(m, x', y') && best == ScenicScore(m, x', y')
    {
      for x := 0 to m.width
        invariant forall x': nat, y': nat :: x' < m.width && y' < y ==> ScenicScore(m, x', y') <= best
        invariant forall x': nat :: x' < x ==> ScenicScore(m, x', y) <= best
        invariant best == 0 || exists x': nat, y': nat :: InGrid(m, x', y') && best == ScenicScore(m, x', y')
      {
        var score := MeasureViewingDistance(m, x, y);
        if score > best {
          best := score;
          assert InGrid(m, x, y) && best == ScenicScore(m, x, y);
        }
      }
    }
  }
}
