/** src/day14.rs: falling sand.  Rock paths become walls in a sparse grid;
    one grain at a time falls from (500, 0), trying straight down, then down
    to the left, then down to the right, and settles when all three are
    taken.  With a floor, every cell two below the lowest wall is solid.
    Positions are (x, y) with y growing downwards. */
module Day14 {
  import opened Wrappers
  import opened Strings

  datatype Cell = Wall | Sand

  type Pos = (int, int)

  /** `i32::MIN`, the lowest wall row of a grid with no walls. */
  const I32Min: int := -0x8000_0000

  /** `SparseGrid::SPAWN_POS`. */
  const Spawn: Pos := (500, 0)

  /** The fields of `SparseGrid` as a value. */
  datatype Grid = Grid(data: map<Pos, Cell>, movingSandPos: Pos, hasFloor: bool, maxY: int)

  /** `SparseGrid::get`: a stored cell wins; otherwise, with a floor, every
      row from `max_y + 2` down is wall; otherwise the cell is empty. */
  function CellAt(g: Grid, pos: Pos): (r: Option<Cell>)
    ensures r.None? <==> pos !in g.data && !(g.hasFloor && pos.1 >= g.maxY + 2)
    ensures r == Some(Sand) <==> pos in g.data && g.data[pos] == Sand
  {
    if pos in g.data then Some(g.data[pos])
    else if g.hasFloor && pos.1 >= g.maxY + 2 then Some(Wall)
    else None
  }

  /** `SparseGrid::is_sand_falling_infinitely`. */
  predicate FallingInfinitely(g: Grid)
  {
    g.movingSandPos.1 > g.maxY
  }

  /** `SparseGrid::is_spawn_blocked`. */
  predicate SpawnBlocked(g: Grid)
  {
    CellAt(g, Spawn) == Some(Sand)
  }

  // ------------------------------------------------------------ segments

  /** The ends of an inclusive range, in the order `create_wall` picks them. */
  function Lo(a: int, b: int): int
  {
    if a < b then a else b
  }

  function Hi(a: int, b: int): int
  {
    if a < b then b else a
  }

  /** `create_wall` draws a segment only when it is vertical or horizontal. */
  predicate Straight(start: Pos, end: Pos)
  {
    start.0 == end.0 || start.1 == end.1
  }

  /** The cells `create_wall` sets: the inclusive vertical segment when the x
      coordinates agree, else the inclusive horizontal one. */
  predicate OnSegment(start: Pos, end: Pos, p: Pos)
  {
    if start.0 == end.0 then p.0 == start.0 && Lo(start.1, end.1) <= p.1 <= Hi(start.1, end.1)
    else start.1 == end.1 && p.1 == start.1 && Lo(start.0, end.0) <= p.0 <= Hi(start.0, end.0)
  }

  /** The lowest row of a straight segment. */
  function SegmentTop(start: Pos, end: Pos): int
  {
    Hi(start.1, end.1)
  }

  /** The endpoints may come in either order. */
  lemma OnSegmentSymmetric(start: Pos, end: Pos, p: Pos)
    ensures OnSegment(start, end, p) == OnSegment(end, start, p)
    ensures SegmentTop(start, end) == SegmentTop(end, start)
  {
  }

  /** Both endpoints are on a straight segment, and it reaches row
      `SegmentTop` and no lower. */
  lemma SegmentEnds(start: Pos, end: Pos)
    requires Straight(start, end)
    ensures OnSegment(start, end, start) && OnSegment(start, end, end)
    ensures OnSegment(start, end, (start.0, SegmentTop(start, end))) || OnSegment(start, end, (end.0, SegmentTop(start, end)))
    ensures forall p :: OnSegment(start, end, p) ==> p.1 <= SegmentTop(start, end)
  {
  }

  /** The cells of the first n windows of a path. */
  predicate OnPath(path: seq<Pos>, n: nat, p: Pos)
    requires n < |path| || n == 0
  {
    n > 0 && (OnPath(path, n - 1, p) || OnSegment(path[n - 1], path[n], p))
  }

  function Windows(path: seq<Pos>): nat
  {
    if |path| == 0 then 0 else |path| - 1
  }

  /** The cells of the paths of `paths[..k]`. */
  predicate OnPaths(paths: seq<seq<Pos>>, k: nat, p: Pos)
    requires k <= |paths|
  {
    k > 0 && (OnPaths(paths, k - 1, p) || OnPath(paths[k - 1], Windows(paths[k - 1]), p))
  }

  predicate PathStraight(path: seq<Pos>, n: nat)
    requires n < |path| || n == 0
  {
    n > 0 ==> PathStraight(path, n - 1) && Straight(path[n - 1], path[n])
  }

  predicate PathsStraight(paths: seq<seq<Pos>>, k: nat)
    requires k <= |paths|
  {
    k > 0 ==> PathsStraight(paths, k - 1) && PathStraight(paths[k - 1], Windows(paths[k - 1]))
  }

  /** The `max_y` after the walls of the first n windows of a path. */
  function PathTop(top: int, path: seq<Pos>, n: nat): int
    requires n < |path| || n == 0
  {
    if n == 0 then top else Max(PathTop(top, path, n - 1), SegmentTop(path[n - 1], path[n]))
  }

  function PathsTop(paths: seq<seq<Pos>>, k: nat): int
    requires k <= |paths|
  {
    if k == 0 then I32Min else PathTop(PathsTop(paths, k - 1), paths[k - 1], Windows(paths[k - 1]))
  }

  /** No wall of the paths lies below the `max_y` they produce. */
  lemma {:induction false} PathTopBounds(top: int, path: seq<Pos>, n: nat, p: Pos)
    requires n < |path| || n == 0
    requires PathStraight(path, n) && OnPath(path, n, p)
    ensures p.1 <= PathTop(top, path, n)
  {
    if OnPath(path, n - 1, p) {
      PathTopBounds(top, path, n - 1, p);
    } else {
      SegmentEnds(path[n - 1], path[n]);
    }
  }

  lemma {:induction false} PathTopAbove(top: int, path: seq<Pos>, n: nat)
    requires n < |path| || n == 0
    ensures top <= PathTop(top, path, n)
  {
    if n > 0 {
      PathTopAbove(top, path, n - 1);
    }
  }

  lemma {:induction false} PathsTopBounds(paths: seq<seq<Pos>>, k: nat, p: Pos)
    requires k <= |paths| && PathsStraight(paths, k) && OnPaths(paths, k, p)
    ensures p.1 <= PathsTop(paths, k)
  {
    var path := paths[k - 1];
    if OnPaths(paths, k - 1, p) {
      PathsTopBounds(paths, k - 1, p);
      PathTopAbove(PathsTop(paths, k - 1), path, Windows(path));
    } else {
      PathTopBounds(PathsTop(paths, k - 1), path, Windows(path), p);
    }
  }

  // ------------------------------------------------------------ one grain

  datatype UpdateResult = Moved | Settled

  /** down, down-left, down-right: the order `update_grid` tries them. */
  function Candidates(pos: Pos): seq<Pos>
  {
    [(pos.0, pos.1 + 1), (pos.0 - 1, pos.1 + 1), (pos.0 + 1, pos.1 + 1)]
  }

  /** The index of the first empty cell in `cs`. */
  function FirstFree(g: Grid, cs: seq<Pos>): (r: Option<nat>)
    ensures r.Some? ==> r.value < |cs| && CellAt(g, cs[r.value]).None?
    ensures r.Some? ==> forall j :: 0 <= j < r.value ==> CellAt(g, cs[j]).Some?
    ensures r.None? ==> forall j :: 0 <= j < |cs| ==> CellAt(g, cs[j]).Some?
  {
    if |cs| == 0 then None
    else if CellAt(g, cs[0]).None? then Some(0)
    else
      match FirstFree(g, cs[1..])
      case None => None
      case Some(k) => Some(k + 1)
  }

  /** `update_grid` on a value: the grain moves to the first empty candidate,
      or, when none is empty, becomes sand where it is and a new grain starts
      at the spawn. */
  function Step(g: Grid): (r: (UpdateResult, Grid))
    ensures r.0 == Moved ==>
      && r.1.data == g.data
      && r.1.movingSandPos in Candidates(g.movingSandPos)
      && CellAt(g, r.1.movingSandPos).None?
    ensures r.0 == Settled ==> r.1.movingSandPos == Spawn && g.movingSandPos in r.1.data
    ensures g.data.Keys <= r.1.data.Keys
    ensures r.1.hasFloor == g.hasFloor && r.1.maxY == g.maxY
  {
    var cs := Candidates(g.movingSandPos);
    match FirstFree(g, cs)
    case Some(k) => (Moved, g.(movingSandPos := cs[k]))
    case None => (Settled, g.(data := g.data[g.movingSandPos := Sand], movingSandPos := Spawn))
  }

  /** A move goes one row down and at most one column sideways, into an empty
      cell, after every candidate of higher priority proved taken; nothing
      else changes. */
  lemma StepMoves(g: Grid)
    requires Step(g).0 == Moved
    ensures var (pos, next) := (g.movingSandPos, Step(g).1.movingSandPos);
      && next.1 == pos.1 + 1 && -1 <= next.0 - pos.0 <= 1
      && CellAt(g, next).None?
      && (next.0 != pos.0 ==> CellAt(g, (pos.0, pos.1 + 1)).Some?)
      && (next.0 == pos.0 + 1 ==> CellAt(g, (pos.0 - 1, pos.1 + 1)).Some?)
      && Step(g).1 == g.(movingSandPos := next)
  {
    var pos := g.movingSandPos;
    var cs := Candidates(pos);
    var k := FirstFree(g, cs).value;
    assert Step(g).1 == g.(movingSandPos := cs[k]);
    if k == 1 {
      assert CellAt(g, cs[0]).Some?;
    } else if k == 2 {
      assert CellAt(g, cs[0]).Some? && CellAt(g, cs[1]).Some?;
    }
  }

  /** A grain settles exactly when all three cells below it are taken; it is
      stored as sand, the spawn takes over, and the lowest wall row stays. */
  lemma StepSettles(g: Grid)
    ensures Step(g).0 == Settled <==> forall c :: c in Candidates(g.movingSandPos) ==> CellAt(g, c).Some?
    ensures Step(g).0 == Settled ==>
      Step(g).1 == Grid(g.data[g.movingSandPos := Sand], Spawn, g.hasFloor, g.maxY)
  {
    var cs := Candidates(g.movingSandPos);
    if FirstFree(g, cs).Some? {
      assert cs[FirstFree(g, cs).value] in cs;
    } else {
      forall c | c in cs ensures CellAt(g, c).Some? {
        var j :| 0 <= j < |cs| && cs[j] == c;
      }
    }
  }

  /** A position holds no wall. */
  predicate NoWall(g: Grid, p: Pos)
  {
    p in g.data ==> g.data[p] == Sand
  }

  /** What holds between updates: no stored wall lies below `max_y`; without
      a floor nothing stored does; neither the grain nor the spawn is on a
      wall. */
  predicate Valid(g: Grid)
  {
    && (forall p :: p in g.data && g.data[p] == Wall ==> p.1 <= g.maxY)
    && (!g.hasFloor ==> forall p :: p in g.data ==> p.1 <= g.maxY)
    && NoWall(g, g.movingSandPos)
    && NoWall(g, Spawn)
  }

  /** An update keeps the grid valid, never removes a stored cell, and never
      changes a wall. */
  lemma StepKeepsWalls(g: Grid)
    requires Valid(g)
    ensures Valid(Step(g).1)
    ensures g.data.Keys <= Step(g).1.data.Keys
    ensures forall p :: p in g.data && g.data[p] == Wall ==> Step(g).1.data[p] == Wall
    ensures Step(g).1.maxY == g.maxY && Step(g).1.hasFloor == g.hasFloor
  {
    var cs := Candidates(g.movingSandPos);
    if FirstFree(g, cs).None? && !g.hasFloor {
      assert CellAt(g, cs[0]).Some?;
    }
  }

  /** Without a floor, a grain below every stored cell falls straight down
      forever: `day14a` may stop as soon as the grain passes `max_y`. */
  lemma FallsForever(g: Grid)
    requires Valid(g) && !g.hasFloor && FallingInfinitely(g)
    ensures Step(g) == (Moved, g.(movingSandPos := (g.movingSandPos.0, g.movingSandPos.1 + 1)))
    ensures FallingInfinitely(Step(g).1) && Valid(Step(g).1)
  {
    var cs := Candidates(g.movingSandPos);
    assert CellAt(g, cs[0]).None?;
  }

  // ------------------------------------------------------------ the run

  /** The stopping conditions passed to `count_settled_sand_until`. */
  datatype Condition = UntilFallingInfinitely | UntilSpawnBlocked

  predicate Holds(cond: Condition, g: Grid)
  {
    match cond
    case UntilFallingInfinitely => FallingInfinitely(g)
    case UntilSpawnBlocked => SpawnBlocked(g)
  }

  /** The grid after n updates. */
  function Iterate(g: Grid, n: nat): (r: Grid)
    ensures g.data.Keys <= r.data.Keys
    ensures r.hasFloor == g.hasFloor && r.maxY == g.maxY
  {
    if n == 0 then g else Step(Iterate(g, n - 1)).1
  }

  /** The number of `Settled` results among the first n updates. */
  function SettledIn(g: Grid, n: nat): nat
  {
    if n == 0 then 0
    else SettledIn(g, n - 1) + (if Step(Iterate(g, n - 1)).0 == Settled then 1 else 0)
  }

  /** The condition held after none of the first n updates. */
  predicate NeverHeld(g: Grid, cond: Condition, n: nat)
  {
    n == 0 || (NeverHeld(g, cond, n - 1) && !Holds(cond, Iterate(g, n)))
  }

  /** So it fails after each of those updates. */
  lemma {:induction false} NeverHeldAt(g: Grid, cond: Condition, n: nat, k: nat)
    requires NeverHeld(g, cond, n) && 1 <= k <= n
    ensures !Holds(cond, Iterate(g, k))
  {
    if k < n {
      NeverHeldAt(g, cond, n - 1, k);
    }
  }

  /** The run stops after update n: the condition holds then and after no
      earlier update. */
  predicate FirstHold(g: Grid, cond: Condition, n: nat)
  {
    n >= 1 && Holds(cond, Iterate(g, n)) && NeverHeld(g, cond, n - 1)
  }

  /** At most one update is the first after which the condition holds, so
      the count does not depend on how much fuel was allowed. */
  lemma FirstHoldUnique(g: Grid, cond: Condition, n: nat, m: nat)
    requires FirstHold(g, cond, n) && FirstHold(g, cond, m)
    ensures n == m
  {
    if n < m {
      NeverHeldAt(g, cond, m - 1, n);
    } else if m < n {
      NeverHeldAt(g, cond, n - 1, m);
    }
  }

  /** Validity, and with it every wall, lasts through a run. */
  lemma {:induction false} IterateKeepsWalls(g: Grid, n: nat)
    requires Valid(g)
    ensures Valid(Iterate(g, n))
    ensures forall p :: p in g.data && g.data[p] == Wall ==> p in Iterate(g, n).data && Iterate(g, n).data[p] == Wall
  {
    if n > 0 {
      IterateKeepsWalls(g, n - 1);
      StepKeepsWalls(Iterate(g, n - 1));
    }
  }

  // ------------------------------------------------------------ the object

  /** `SparseGrid`, whose methods update its fields in place. */
  class SparseGrid {
    var data: map<Pos, Cell>
    var movingSandPos: Pos
    var hasFloor: bool
    var maxY: int

    function Snapshot(): Grid
      reads this
    {
      Grid(data, movingSandPos, hasFloor, maxY)
    }

    /** `SparseGrid::new`. */
    constructor(hasFloor: bool)
      ensures Snapshot() == Grid(map[], Spawn, hasFloor, I32Min)
    {
      data := map[];
      movingSandPos := Spawn;
      this.hasFloor := hasFloor;
      maxY := I32Min;
    }

    /** `SparseGrid::set`: only a wall lowers `max_y`. */
    method Set(pos: Pos, cell: Cell)
      modifies this
      ensures data == old(data)[pos := cell]
      ensures maxY == if cell == Wall then Max(old(maxY), pos.1) else old(maxY)
      ensures movingSandPos == old(movingSandPos) && hasFloor == old(hasFloor)
    {
      data := data[pos := cell];
      if cell == Wall {
        maxY := Max(maxY, pos.1);
      }
    }

    /** `SparseGrid::set_sand_pos`. */
    method SetSandPos(pos: Pos)
      modifies this
      ensures Snapshot() == old(Snapshot()).(movingSandPos := pos)
    {
      movingSandPos := pos;
    }

    /** `SparseGrid::create_wall`: every cell of a straight segment becomes
        wall; a diagonal segment makes the source panic (`ok` false, nothing
        drawn). */
    method CreateWall(start: Pos, end: Pos) returns (ok: bool)
      modifies this
      ensures ok <==> Straight(start, end)
      ensures !ok ==> Snapshot() == old(Snapshot())
      ensures ok ==> forall p :: p in data <==> p in old(data) || OnSegment(start, end, p)
      ensures ok ==> forall p :: p in data ==> data[p] == if OnSegment(start, end, p) then Wall else old(data)[p]
      ensures ok ==> maxY == Max(old(maxY), SegmentTop(start, end))
      ensures movingSandPos == old(movingSandPos) && hasFloor == old(hasFloor)
    {
      if start.0 == end.0 {
        DrawColumn(start.0, Lo(start.1, end.1), Hi(start.1, end.1));
        ok := true;
      } else if start.1 == end.1 {
        DrawRow(start.1, Lo(start.0, end.0), Hi(start.0, end.0));
        ok := true;
      } else {
        ok := false;
      }
    }

    /** The vertical loop of `create_wall`: rows lo..=hi of column x. */
    method DrawColumn(x: int, lo: int, hi: int)
      requires lo <= hi
      modifies this
      ensures forall p :: p in data <==> p in old(data) || (p.0 == x && lo <= p.1 <= hi)
      ensures forall p :: p in data ==> data[p] == if p.0 == x && lo <= p.1 <= hi then Wall else old(data)[p]
      ensures maxY == Max(old(maxY), hi)
      ensures movingSandPos == old(movingSandPos) && hasFloor == old(hasFloor)
    {
      for y := lo to hi + 1
        invariant forall p :: p in data <==> p in old(data) || (p.0 == x && lo <= p.1 < y)
        invariant forall p :: p in data ==> data[p] == if p.0 == x && lo <= p.1 < y then Wall else old(data)[p]
        invariant maxY == if y == lo then old(maxY) else Max(old(maxY), y - 1)
        invariant movingSandPos == old(movingSandPos) && hasFloor == old(hasFloor)
      {
        Set((x, y), Wall);
      }
    }

    /** The horizontal loop of `create_wall`: columns lo..=hi of row y. */
    method DrawRow(y: int, lo: int, hi: int)
      requires lo <= hi
      modifies this
      ensures forall p :: p in data <==> p in old(data) || (p.1 == y && lo <= p.0 <= hi)
      ensures forall p :: p in data ==> data[p] == if p.1 == y && lo <= p.0 <= hi then Wall else old(data)[p]
      ensures maxY == Max(old(maxY), y)
      ensures movingSandPos == old(movingSandPos) && hasFloor == old(hasFloor)
    {
      for x := lo to hi + 1
        invariant forall p :: p in data <==> p in old(data) || (p.1 == y && lo <= p.0 < x)
        invariant forall p :: p in data ==> data[p] == if p.1 == y && lo <= p.0 < x then Wall else old(data)[p]
        invariant maxY == if x == lo then old(maxY) else Max(old(maxY), y)
        invariant movingSandPos == old(movingSandPos) && hasFloor == old(hasFloor)
      {
        Set((x, y), Wall);
      }
    }

    /** `update_grid`: try the three cells below in order; the first empty one
        receives the grain, and if none is empty the grain settles as sand
        and the next one starts at the spawn. */
    method UpdateGrid() returns (result: UpdateResult)
      modifies this
      ensures (result, Snapshot()) == Step(old(Snapshot()))
    {
      var pos := movingSandPos;
      var neighbors := Candidates(pos);
      ghost var g := Snapshot();
      for k := 0 to 3
        invariant Snapshot() == g
        invariant forall j :: 0 <= j < k ==> CellAt(g, neighbors[j]).Some?
      {
        var neighbor := neighbors[k];
        if CellAt(Snapshot(), neighbor).None? {
          FirstFreeIsFirst(g, neighbors, k);
          SetSandPos(neighbor);
          return Moved;
        }
      }
      assert FirstFree(g, neighbors).None?;
      Set(pos, Sand);
      movingSandPos := Spawn;
      result := Settled;
    }
  }

  /** The first empty candidate is the one `FirstFree` names. */
  lemma FirstFreeIsFirst(g: Grid, cs: seq<Pos>, k: nat)
    requires k < |cs| && CellAt(g, cs[k]).None?
    requires forall j :: 0 <= j < k ==> CellAt(g, cs[j]).Some?
    ensures FirstFree(g, cs) == Some(k)
  {
    var r := FirstFree(g, cs);
    assert r.Some?;
    assert !(r.value < k) && !(r.value > k);
  }

  /** `create_grid` from parsed paths: each path draws the walls between its
      consecutive points; `ok` is false where the source panics on a
      diagonal segment. */
  method CreateGrid(paths: seq<seq<Pos>>, hasFloor: bool) returns (grid: SparseGrid, ok: bool)
    ensures fresh(grid)
    ensures ok <==> PathsStraight(paths, |paths|)
    ensures grid.movingSandPos == Spawn && grid.hasFloor == hasFloor
    ensures ok ==> forall p :: p in grid.data <==> OnPaths(paths, |paths|, p)
    ensures ok ==> forall p :: p in grid.data ==> grid.data[p] == Wall
    ensures ok ==> grid.maxY == PathsTop(paths, |paths|)
  {
    grid := new SparseGrid(hasFloor);
    for k := 0 to |paths|
      invariant grid.movingSandPos == Spawn && grid.hasFloor == hasFloor
      invariant PathsStraight(paths, k)
      invariant forall p :: p in grid.data <==> OnPaths(paths, k, p)
      invariant forall p :: p in grid.data ==> grid.data[p] == Wall
      invariant grid.maxY == PathsTop(paths, k)
    {
      var path := paths[k];
      var drawn := DrawPath(grid, path);
      if !drawn {
        NotStraightStays(paths, k, |paths|);
        return grid, false;
      }
    }
    ok := true;
  }

  /** The windows of one path, drawn one segment at a time. */
  method DrawPath(grid: SparseGrid, path: seq<Pos>) returns (ok: bool)
    modifies grid
    ensures grid.movingSandPos == old(grid.movingSandPos) && grid.hasFloor == old(grid.hasFloor)
    ensures ok <==> PathStraight(path, Windows(path))
    ensures ok ==> forall p :: p in grid.data <==> p in old(grid.data) || OnPath(path, Windows(path), p)
    ensures ok ==> forall p :: p in grid.data ==> grid.data[p] == if OnPath(path, Windows(path), p) then Wall else old(grid.data)[p]
    ensures ok ==> grid.maxY == PathTop(old(grid.maxY), path, Windows(path))
  {
    var n := Windows(path);
    for j := 0 to n
      invariant grid.movingSandPos == old(grid.movingSandPos) && grid.hasFloor == old(grid.hasFloor)
      invariant PathStraight(path, j)
      invariant forall p :: p in grid.data <==> p in old(grid.data) || OnPath(path, j, p)
      invariant forall p :: p in grid.data ==> grid.data[p] == if OnPath(path, j, p) then Wall else old(grid.data)[p]
      invariant grid.maxY == PathTop(old(grid.maxY), path, j)
    {
      var straight := grid.CreateWall(path[j], path[j + 1]);
      if !straight {
        PathNotStraightStays(path, j + 1, n);
        return false;
      }
    }
    ok := true;
  }

  lemma {:induction false} PathNotStraightStays(path: seq<Pos>, j: nat, n: nat)
    requires 0 < j <= n && (n < |path| || n == 0) && !PathStraight(path, j)
    ensures !PathStraight(path, n)
    decreases n - j
  {
    if j < n {
      PathNotStraightStays(path, j + 1, n);
    }
  }

  lemma {:induction false} NotStraightStays(paths: seq<seq<Pos>>, k: nat, n: nat)
    requires k < n <= |paths| && !PathStraight(paths[k], Windows(paths[k]))
    ensures !PathsStraight(paths, n)
    decreases n - k
  {
    if k + 1 < n {
      NotStraightStays2(paths, k + 1, n);
    }
  }

  lemma {:induction false} NotStraightStays2(paths: seq<seq<Pos>>, k: nat, n: nat)
    requires 0 < k <= n <= |paths| && !PathsStraight(paths, k)
    ensures !PathsStraight(paths, n)
    decreases n - k
  {
    if k < n {
      NotStraightStays2(paths, k + 1, n);
    }
  }

  /** A grid built from straight paths is valid: walls lie at or above
      `max_y`, and the spawn carries no wall when no path crosses it. */
  lemma BuiltGridValid(paths: seq<seq<Pos>>, g: Grid)
    requires PathsStraight(paths, |paths|) && !OnPaths(paths, |paths|, Spawn)
    requires g.movingSandPos == Spawn && g.maxY == PathsTop(paths, |paths|)
    requires forall p :: p in g.data <==> OnPaths(paths, |paths|, p)
    requires forall p :: p in g.data ==> g.data[p] == Wall
    ensures Valid(g)
  {
    forall p | p in g.data ensures p.1 <= g.maxY {
      PathsTopBounds(paths, |paths|, p);
    }
  }

  /** `count_settled_sand_until`: update until the condition holds after an
      update, counting the grains that settle.  `None` where the source
      panics (a diagonal segment) or where the run would need more than
      `fuel` updates. */
  method CountSettledSandUntil(paths: seq<seq<Pos>>, hasFloor: bool, cond: Condition, fuel: nat)
    returns (count: Option<nat>, ghost start: Grid)
    ensures start.movingSandPos == Spawn && start.hasFloor == hasFloor
    ensures PathsStraight(paths, |paths|) ==>
      && (forall p :: p in start.data <==> OnPaths(paths, |paths|, p))
      && (forall p :: p in start.data ==> start.data[p] == Wall)
      && start.maxY == PathsTop(paths, |paths|)
    ensures count.Some? ==> PathsStraight(paths, |paths|)
    ensures count.Some? ==> exists n: nat :: n <= fuel && FirstHold(start, cond, n) && count.value == SettledIn(start, n)
    ensures count.None? && PathsStraight(paths, |paths|) ==> NeverHeld(start, cond, fuel)
  {
    var grid, ok := CreateGrid(paths, hasFloor);
    start := grid.Snapshot();
    if !ok {
      return None, start;
    }
    count := RunUntil(grid, cond, fuel);
  }

  /** One more update extends the iteration and its count by the result of
      that update. */
  lemma IterateNext(g: Grid, n: nat, result: UpdateResult, next: Grid)
    requires (result, next) == Step(Iterate(g, n))
    ensures Iterate(g, n + 1) == next
    ensures SettledIn(g, n + 1) == SettledIn(g, n) + (if result == Settled then 1 else 0)
  {
  }

  /** The body of that loop: one update, counted when the sand settled. */
  method UpdateAndCount(grid: SparseGrid, ghost start: Grid, ghost steps: nat, sandSettled: nat)
    returns (sandSettled': nat)
    modifies grid
    requires grid.Snapshot() == Iterate(start, steps) && sandSettled == SettledIn(start, steps)
    ensures grid.Snapshot() == Iterate(start, steps + 1) && sandSettled' == SettledIn(start, steps + 1)
  {
    var result := grid.UpdateGrid();
    IterateNext(start, steps, result, grid.Snapshot());
    sandSettled' := sandSettled;
    if result == Settled {
      sandSettled' := sandSettled' + 1;
    }
  }

  /** After an update the condition either holds for the first time or has
      still never held. */
  lemma HoldsAfter(g: Grid, cond: Condition, n: nat, holds: bool)
    requires n >= 1 && NeverHeld(g, cond, n - 1) && holds == Holds(cond, Iterate(g, n))
    ensures holds ==> FirstHold(g, cond, n)
    ensures !holds ==> NeverHeld(g, cond, n)
  {
  }

  /** The loop of `count_settled_sand_until`, from the grid it built. */
  method RunUntil(grid: SparseGrid, cond: Condition, fuel: nat) returns (count: Option<nat>)
    modifies grid
    ensures count.Some? ==> exists n: nat :: n <= fuel && FirstHold(old(grid.Snapshot()), cond, n)
                                && count.value == SettledIn(old(grid.Snapshot()), n)
    ensures count.None? ==> NeverHeld(old(grid.Snapshot()), cond, fuel)
  {
    ghost var start := grid.Snapshot();
    var sandSettled := 0;
    var steps := 0;
    while steps < fuel
      invariant steps <= fuel
      invariant grid.Snapshot() == Iterate(start, steps)
      invariant sandSettled == SettledIn(start, steps)
      invariant NeverHeld(start, cond, steps)
      decreases fuel - steps
    {
      sandSettled := UpdateAndCount(grid, start, steps, sandSettled);
      steps := steps + 1;
      var holds := Holds(cond, grid.Snapshot());
      HoldsAfter(start, cond, steps, holds);
      if holds {
        return Some(sandSettled);
      }
    }
    count := None;
  }

  // ------------------------------------------------------------ parsing

  /** One point "x,y" of a path: exactly two comma-separated integers, or the
      source panics. */
  function ParsePoint(s: string): Option<Pos>
  {
    var parts := SplitStr(s, ",");
    if |parts| != 2 then None
    else
      match (ParseInt(parts[0]), ParseInt(parts[1]))
      case (Some(x), Some(y)) => Some((x, y))
      case _ => None
  }

  /** A path: its points separated by " -> ". */
  function ParsePath(line: string): Option<seq<Pos>>
  {
    ParsePoints(SplitStr(line, " -> "))
  }

  function ParsePoints(parts: seq<string>): (r: Option<seq<Pos>>)
    ensures r.Some? ==> |r.value| == |parts|
    ensures r.Some? ==> forall i :: 0 <= i < |parts| ==> ParsePoint(parts[i]) == Some(r.value[i])
    ensures r.None? ==> exists i :: 0 <= i < |parts| && ParsePoint(parts[i]).None?
  {
    if |parts| == 0 then Some([])
    else
      var n := |parts| - 1;
      match (ParsePoints(parts[..n]), ParsePoint(parts[n]))
      case (Some(ps), Some(p)) => Some(ps + [p])
      case (None, _) => None
      case (_, None) => None
  }

  lemma DigitsHaveNoComma(s: string)
    requires AllDigits(s)
    ensures ',' !in s
  {
  }

  /** The text of a point with non-negative coordinates parses back. */
  lemma ParsePointText(x: nat, y: nat)
    ensures ParsePoint(NatToString(x) + "," + NatToString(y)) == Some((x as int, y as int))
  {
    DigitsHaveNoComma(NatToString(x));
    DigitsHaveNoComma(NatToString(y));
    SplitJoinedWords(NatToString(x), ",", NatToString(y));
    ParseNatToString(x);
    ParseNatToString(y);
  }
}
