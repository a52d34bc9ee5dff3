/** src/day12.rs: the heightmap and its neighbour relation (the graph the
    breadth-first search walks).  Positions are integer pairs (x, y). */
module Day12 {
  import opened Wrappers
  import opened Arith

  type Pos = (int, int)

  /** `Heightmap`: row-major heights. */
  datatype Heightmap = Heightmap(data: seq<nat>, width: nat, height: nat)
  {
    predicate Valid()
    {
      |data| == width * height
    }
  }

  /** The index `get` computes lies inside `data`, which is what indexing needs. */
  predicate Indexable(hm: Heightmap, pos: Pos)
  {
    0 <= pos.0 && 0 <= pos.1 && pos.1 * hm.width + pos.0 < |hm.data|
  }

  /** `Heightmap::get`: the height at `pos`, row-major. */
  function Get(hm: Heightmap, pos: Pos): (h: nat)
    requires Indexable(hm, pos)
    ensures h in hm.data
  {
    hm.data[pos.1 * hm.width + pos.0]
  }

  /** `Heightmap::is_out_of_bounds`: a position it accepts is one `get` can
      read. */
  predicate IsOutOfBounds(hm: Heightmap, pos: Pos)
    ensures hm.Valid() && !IsOutOfBounds(hm, pos) ==> Indexable(hm, pos)
  {
    RowMajorBound(hm.width, hm.height, pos.0, pos.1);
    pos.0 < 0 || pos.1 < 0 || pos.0 >= hm.width || pos.1 >= hm.height
  }

  /** A row-major index of a cell inside a w-by-h grid is below w * h. */
  lemma RowMajorBound(w: nat, h: nat, x: int, y: int)
    ensures 0 <= x < w && 0 <= y < h ==> y * w + x < w * h
  {
    if 0 <= x < w && 0 <= y < h {
      assert y * w + x < (y + 1) * w by {
        assert (y + 1) * w == y * w + w;
      }
      assert (y + 1) * w <= h * w by {
        MulLeq(y + 1, h, w);
      }
    }
  }

  /** The height rule of the climb: in bounds, and at most one higher. */
  predicate Legal(hm: Heightmap, pos: Pos, q: Pos)
    requires hm.Valid() && Indexable(hm, pos)
  {
    !IsOutOfBounds(hm, q) && Get(hm, q) <= Get(hm, pos) + 1
  }

  /** The candidates in the order the source tries them: left, right, up, down. */
  function Neighbors(pos: Pos): (r: seq<Pos>)
    ensures |r| == 4 && forall q :: q in r <==> Adjacent(pos, q)
  {
    [(pos.0 - 1, pos.1), (pos.0 + 1, pos.1), (pos.0, pos.1 - 1), (pos.0, pos.1 + 1)]
  }

  function FilterLegal(hm: Heightmap, pos: Pos, qs: seq<Pos>): seq<Pos>
    requires hm.Valid() && Indexable(hm, pos)
  {
    if |qs| == 0 then []
    else
      var last := qs[|qs| - 1];
      FilterLegal(hm, pos, qs[..|qs| - 1]) + (if Legal(hm, pos, last) then [last] else [])
  }

  /** `Heightmap::get_legal_neighbors`: `out` is cleared and then receives each
      candidate that is in bounds and at most one higher, in candidate order. */
  method GetLegalNeighbors(hm: Heightmap, pos: Pos) returns (out: seq<Pos>)
    requires hm.Valid() && Indexable(hm, pos)
    ensures out == FilterLegal(hm, pos, Neighbors(pos))
  {
    out := [];
    var currentHeight := Get(hm, pos);
    var neighbors := Neighbors(pos);
    for k := 0 to 4
      invariant out == FilterLegal(hm, pos, neighbors[..k])
    {
      var neighbor := neighbors[k];
      assert neighbors[..k + 1][..k] == neighbors[..k];
      if IsOutOfBounds(hm, neighbor) {
        continue;
      }
      var neighborHeight := Get(hm, neighbor);
      if neighborHeight > currentHeight + 1 {
        continue;
      }
      out := out + [neighbor];
    }
    assert neighbors[..4] == neighbors;
  }

  /** The filter keeps exactly the legal candidates, and no more of them than
      there are candidates. */
  lemma {:induction false} FilterLegalMembers(hm: Heightmap, pos: Pos, qs: seq<Pos>)
    requires hm.Valid() && Indexable(hm, pos)
    ensures |FilterLegal(hm, pos, qs)| <= |qs|
    ensures forall q :: q in FilterLegal(hm, pos, qs) <==> q in qs && Legal(hm, pos, q)
  {
    if |qs| > 0 {
      var n := |qs| - 1;
      FilterLegalMembers(hm, pos, qs[..n]);
      assert qs == qs[..n] + [qs[n]];
    }
  }

  /** Orthogonal adjacency, stated without the candidate list. */
  predicate Adjacent(p: Pos, q: Pos)
  {
    var dx := q.0 - p.0;
    var dy := q.1 - p.1;
    (dy == 0 && (dx == 1 || dx == -1)) || (dx == 0 && (dy == 1 || dy == -1))
  }

  /** The legal neighbours are at most four and are exactly the in-bounds
      orthogonal neighbours at most one higher than `pos`: nothing left out and
      nothing added. */
  lemma LegalNeighborsAre(hm: Heightmap, pos: Pos)
    requires hm.Valid() && Indexable(hm, pos)
    ensures |FilterLegal(hm, pos, Neighbors(pos))| <= 4
    ensures forall q :: q in FilterLegal(hm, pos, Neighbors(pos)) <==>
              && Adjacent(pos, q)
              && 0 <= q.0 < hm.width && 0 <= q.1 < hm.height
              && (RowMajorBound(hm.width, hm.height, q.0, q.1); Get(hm, q) <= Get(hm, pos) + 1)
  {
    FilterLegalMembers(hm, pos, Neighbors(pos));
  }

  /** `Heightmap::index_to_pos`; a width of zero would divide by zero. */
  function IndexToPos(hm: Heightmap, index: nat): (r: Pos)
    requires hm.width > 0
    ensures 0 <= r.0 < hm.width && 0 <= r.1
    ensures r.1 * hm.width + r.0 == index
  {
    (index % hm.width, index / hm.width)
  }

  /** `index_to_pos` inverts the row-major index of `get`. */
  lemma IndexToPosInverts(hm: Heightmap, x: nat, y: nat)
    requires x < hm.width
    ensures IndexToPos(hm, y * hm.width + x) == (x, y)
  {
    DivModUnique(y * hm.width + x, hm.width, y, x);
  }

  /** And `get` at the position of an index reads that index. */
  lemma GetAtIndexToPos(hm: Heightmap, index: nat)
    requires hm.Valid() && hm.width > 0 && index < |hm.data|
    ensures Indexable(hm, IndexToPos(hm, index))
    ensures Get(hm, IndexToPos(hm, index)) == hm.data[index]
  {
    var w := hm.width;
    assert index == (index / w) * w + index % w;
  }

  /** The starting points of `day12b`: the positions of height 0, in index order. */
  function StartingPointsFrom(hm: Heightmap, n: nat): seq<Pos>
    requires hm.width > 0 && n <= |hm.data|
  {
    if n == 0 then []
    else StartingPointsFrom(hm, n - 1) + (if hm.data[n - 1] == 0 then [IndexToPos(hm, n - 1)] else [])
  }

  function StartingPoints(hm: Heightmap): seq<Pos>
    requires hm.width > 0
  {
    StartingPointsFrom(hm, |hm.data|)
  }

  /** Every starting point is a position of height 0, and every index of height 0
      gives one. */
  lemma {:induction false} StartingPointsAreLowest(hm: Heightmap, n: nat)
    requires hm.Valid() && hm.width > 0 && n <= |hm.data|
    ensures forall p :: p in StartingPointsFrom(hm, n) ==> Indexable(hm, p) && Get(hm, p) == 0
    ensures forall i :: 0 <= i < n && hm.data[i] == 0 ==> IndexToPos(hm, i) in StartingPointsFrom(hm, n)
  {
    if n > 0 {
      StartingPointsAreLowest(hm, n - 1);
      GetAtIndexToPos(hm, n - 1);
    }
  }

  /** The character mapping of `read_input`: 'S' is height 0, 'E' height 25 and
      'a'..'z' 0..25; anything else panics. */
  function HeightOf(c: char): (r: Option<nat>)
    ensures r.Some? <==> c == 'S' || c == 'E' || 'a' <= c <= 'z'
    ensures r.Some? ==> r.value <= 25
    ensures 'a' <= c <= 'z' ==> r == Some(c as nat - 'a' as nat)
  {
    if c == 'S' then Some(0)
    else if c == 'E' then Some('z' as nat - 'a' as nat)
    else if 'a' <= c <= 'z' then Some(c as nat - 'a' as nat)
    else None
  }

  /** The start has the height of 'a' and the destination that of 'z'. */
  lemma EndpointsHeights()
    ensures HeightOf('S') == HeightOf('a') && HeightOf('E') == HeightOf('z')
  {
  }
}
