/** Cells of the non-wrapping grid, the two distances the agents use, and the
    von Neumann neighbourhood of a cell. */
module Geometry {
  import opened Seqs

  /** A cell, identified by its integer coordinate pair. */
  datatype Coord = Coord(x: int, y: int)

  predicate InBounds(c: Coord, width: int, height: int)
  {
    0 <= c.x < width && 0 <= c.y < height
  }

  function Abs(n: int): nat
  {
    if n < 0 then -n else n
  }

  /** Number of orthogonal steps between two cells. */
  function Manhattan(a: Coord, b: Coord): nat
  {
    Abs(a.x - b.x) + Abs(a.y - b.y)
  }

  /** The square of `get_distance`: the Euclidean distance without its square root. */
  function SqDistance(a: Coord, b: Coord): int
  {
    (a.x - b.x) * (a.x - b.x) + (a.y - b.y) * (a.y - b.y)
  }

  lemma SquareNonNegative(d: int)
    ensures d * d >= 0
    ensures d * d == 0 <==> d == 0
  {
    if d < 0 {
      assert d * d == (-d) * (-d);
    }
  }

  /** `get_distance` is symmetric, never negative and zero exactly on equal cells. */
  lemma SqDistanceIsMetricLike(a: Coord, b: Coord)
    ensures SqDistance(a, b) == SqDistance(b, a)
    ensures SqDistance(a, b) >= 0
    ensures SqDistance(a, b) == 0 <==> a == b
  {
    SquareNonNegative(a.x - b.x);
    SquareNonNegative(a.y - b.y);
    assert (a.x - b.x) * (a.x - b.x) == (b.x - a.x) * (b.x - a.x);
    assert (a.y - b.y) * (a.y - b.y) == (b.y - a.y) * (b.y - a.y);
  }

  /** The cells of column `x`: (x, 0), ..., (x, height - 1). */
  function Column(x: int, height: nat): (r: seq<Coord>)
    ensures |r| == height
    ensures forall c :: c in r <==> c.x == x && 0 <= c.y < height
  {
    var r := seq(height, y requires 0 <= y => Coord(x, y));
    assert forall c: Coord :: c.x == x && 0 <= c.y < height ==> r[c.y] == c;
    r
  }

  /** Every cell of a `width` by `height` grid, column by column. */
  function AllCells(width: nat, height: nat): (r: seq<Coord>)
    ensures |r| == width * height
    ensures forall c :: c in r <==> InBounds(c, width, height)
  {
    if width == 0 then []
    else
      assert width * height == (width - 1) * height + height;
      AllCells(width - 1, height) + Column(width - 1, height)
  }

  /** `get_neighborhood(radius, include_center=True)` on a non-wrapping
      von Neumann grid: the cells within `radius` orthogonal steps, clipped to
      the grid. */
  function Neighborhood(center: Coord, radius: nat, width: nat, height: nat): (r: seq<Coord>)
    ensures forall c :: c in r <==> InBounds(c, width, height) && Manhattan(c, center) <= radius
  {
    Filter(AllCells(width, height), c => Manhattan(c, center) <= radius)
  }
}
