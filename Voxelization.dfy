/**
 * The voxel occupancy grid of src/voxelization.c. A cell (x, y, z) of the GRID_SIZE³ grid stands
 * for the point START_GRID + LENGTH_GRID · (x, y, z); voxelization marks with 1 the cells whose
 * point lies within DIST_GAP_SUBSTRATE of some atom of the substrate.
 */
module Voxelization {
  import opened Constants
  import opened Points

  /** isPointInsideSphere: the squared distance is at most the squared radius (the boundary is
      inside). */
  predicate IsPointInsideSphere(point: Point, center: Point, radius: real)
  {
    var dx, dy, dz := point.x - center.x, point.y - center.y, point.z - center.z;
    dx * dx + dy * dy + dz * dz <= radius * radius
  }

  /** The point a grid cell stands for. */
  function CellCentre(x: int, y: int, z: int): Point
  {
    FromGrid(Point3D(x, y, z))
  }

  /** The cell (x, y, z) is within reach of one of the atoms centred at centers. */
  ghost predicate Occupied(centers: seq<Point>, x: int, y: int, z: int)
  {
    exists i :: 0 <= i < |centers| && IsPointInsideSphere(CellCentre(x, y, z), centers[i], DIST_GAP_SUBSTRATE)
  }

  /** The sphere test is symmetric, and a point at exactly the radius along an axis is inside. */
  lemma InsideFacts(p: Point, c: Point, r: real)
    ensures IsPointInsideSphere(p, c, r) == IsPointInsideSphere(c, p, r)
    ensures IsPointInsideSphere(Point(c.x + r, c.y, c.z), c, r)
    ensures r >= 0.0 ==> !IsPointInsideSphere(Point(c.x + r + 1.0, c.y, c.z), c, r)
  {
    var d := r + 1.0;
    if r >= 0.0 {
      assert d * d > r * r by {
        assert d * d - r * r == 2.0 * r + 1.0;
      }
    }
  }

  /** A point inside the sphere is within the radius on each axis. */
  lemma AxisWithin(d: real, e: real, r: real)
    requires r >= 0.0 && e >= 0.0 && d * d + e <= r * r
    ensures -r <= d <= r
  {
    if d > r {
      SquareGrows(r, d);
    } else if d < -r {
      SquareGrows(r, -d);
    }
  }

  lemma SquareGrows(b: real, a: real)
    requires 0.0 <= b < a
    ensures b * b < a * a
  {
    var p, q := a - b, a + b;
    assert p * q > 0.0 by {
      assert p * q >= p * p > 0.0;
    }
    assert a * a - b * b == p * q;
  }

  /** First index of the scan window voxelization uses on one axis for an atom at coordinate a. */
  function WindowLo(a: real, r: real): int
  {
    TruncToInt((GRID_OFFSET + (a - r)) / LENGTH_GRID)
  }

  /** Last index of that scan window. */
  function WindowHi(a: real, r: real): int
  {
    TruncToInt((GRID_OFFSET + (a + r)) / LENGTH_GRID) + 1
  }

  /** On one axis, every index whose coordinate lies within r of a falls inside the window. */
  lemma WindowAxis(a: real, r: real, x: int)
    requires a - r <= START_GRID + x as real * LENGTH_GRID <= a + r
    ensures WindowLo(a, r) <= x <= WindowHi(a, r)
  {
    var u := (GRID_OFFSET + (a - r)) / LENGTH_GRID;
    var v := (GRID_OFFSET + (a + r)) / LENGTH_GRID;
    assert u <= x as real by {
      assert GRID_OFFSET + (a - r) <= x as real * LENGTH_GRID;
    }
    assert x as real <= v by {
      assert x as real * LENGTH_GRID <= GRID_OFFSET + (a + r);
    }
  }

  /** The scan window of voxelization covers every cell within DIST_GAP_SUBSTRATE of the atom. */
  lemma WindowCovers(c: Point, x: int, y: int, z: int)
    requires IsPointInsideSphere(CellCentre(x, y, z), c, DIST_GAP_SUBSTRATE)
    ensures WindowLo(c.x, DIST_GAP_SUBSTRATE) <= x <= WindowHi(c.x, DIST_GAP_SUBSTRATE)
    ensures WindowLo(c.y, DIST_GAP_SUBSTRATE) <= y <= WindowHi(c.y, DIST_GAP_SUBSTRATE)
    ensures WindowLo(c.z, DIST_GAP_SUBSTRATE) <= z <= WindowHi(c.z, DIST_GAP_SUBSTRATE)
  {
    var p := CellCentre(x, y, z);
    var r := DIST_GAP_SUBSTRATE;
    var dx, dy, dz := p.x - c.x, p.y - c.y, p.z - c.z;
    AxisWithin(dx, dy * dy + dz * dz, r);
    AxisWithin(dy, dx * dx + dz * dz, r);
    AxisWithin(dz, dx * dx + dy * dy, r);
    WindowAxis(c.x, r, x);
    WindowAxis(c.y, r, y);
    WindowAxis(c.z, r, z);
  }

  /** The cells occupied by a substrate are those occupied by either of its parts: the grid is
      the union of the atoms' balls, whatever the order of the atoms. */
  lemma OccupiedUnion(a: seq<Point>, b: seq<Point>, x: int, y: int, z: int)
    ensures Occupied(a + b, x, y, z) <==> Occupied(a, x, y, z) || Occupied(b, x, y, z)
  {
    var p := CellCentre(x, y, z);
    if Occupied(a + b, x, y, z) {
      var i :| 0 <= i < |a + b| && IsPointInsideSphere(p, (a + b)[i], DIST_GAP_SUBSTRATE);
      if i >= |a| {
        assert (a + b)[i] == b[i - |a|];
      }
    }
    if Occupied(a, x, y, z) {
      var i :| 0 <= i < |a| && IsPointInsideSphere(p, a[i], DIST_GAP_SUBSTRATE);
      assert (a + b)[i] == a[i];
    }
    if Occupied(b, x, y, z) {
      var i :| 0 <= i < |b| && IsPointInsideSphere(p, b[i], DIST_GAP_SUBSTRATE);
      assert (a + b)[|a| + i] == b[i];
    }
  }

  /** A grid of the right shape. */
  predicate IsGrid(grid: array3<int>)
  {
    grid.Length0 == GRID_SIZE && grid.Length1 == GRID_SIZE && grid.Length2 == GRID_SIZE
  }

  /** initVoxelGrid: a GRID_SIZE³ grid of zeros. */
  method InitVoxelGrid() returns (grid: array3<int>)
    ensures fresh(grid) && IsGrid(grid)
    ensures forall x, y, z :: 0 <= x < GRID_SIZE && 0 <= y < GRID_SIZE && 0 <= z < GRID_SIZE ==>
      grid[x, y, z] == 0
  {
    grid := new int[GRID_SIZE, GRID_SIZE, GRID_SIZE]((x, y, z) => 0);
  }

  /** voxelization: the grid marks exactly the cells within DIST_GAP_SUBSTRATE of an atom centre
      (the atoms' own radii play no part). */
  method Voxelize(centers: seq<Point>) returns (grid: array3<int>)
    ensures fresh(grid) && IsGrid(grid)
    ensures forall x, y, z :: 0 <= x < GRID_SIZE && 0 <= y < GRID_SIZE && 0 <= z < GRID_SIZE ==>
      grid[x, y, z] == (if Occupied(centers, x, y, z) then 1 else 0)
  {
    grid := InitVoxelGrid();
    for i := 0 to |centers|
      invariant forall x, y, z :: 0 <= x < GRID_SIZE && 0 <= y < GRID_SIZE && 0 <= z < GRID_SIZE ==>
        grid[x, y, z] == (if Occupied(centers[..i], x, y, z) then 1 else 0)
    {
      Stamp(grid, centers[i]);
      forall x, y, z | 0 <= x < GRID_SIZE && 0 <= y < GRID_SIZE && 0 <= z < GRID_SIZE
        ensures grid[x, y, z] == (if Occupied(centers[..i + 1], x, y, z) then 1 else 0)
      {
        assert centers[..i + 1] == centers[..i] + [centers[i]];
        OccupiedUnion(centers[..i], [centers[i]], x, y, z);
        assert Occupied([centers[i]], x, y, z) <==>
          IsPointInsideSphere(CellCentre(x, y, z), centers[i], DIST_GAP_SUBSTRATE) by {
          if IsPointInsideSphere(CellCentre(x, y, z), centers[i], DIST_GAP_SUBSTRATE) {
            assert [centers[i]][0] == centers[i];
          }
        }
      }
    }
  }

  /** The body of the atom loop of voxelization: every cell of the atom's scan window that lies
      in the grid and within DIST_GAP_SUBSTRATE of c is set to 1. */
  method Stamp(grid: array3<int>, c: Point)
    requires IsGrid(grid)
    modifies grid
    ensures forall x, y, z :: 0 <= x < GRID_SIZE && 0 <= y < GRID_SIZE && 0 <= z < GRID_SIZE ==>
      grid[x, y, z] == (if IsPointInsideSphere(CellCentre(x, y, z), c, DIST_GAP_SUBSTRATE) then 1
                        else old(grid[x, y, z]))
  {
    var r := DIST_GAP_SUBSTRATE;
    var x := WindowLo(c.x, r);
    while x <= WindowHi(c.x, r)
      invariant WindowLo(c.x, r) <= x <= WindowHi(c.x, r) + 1
      invariant forall cx, cy, cz :: 0 <= cx < GRID_SIZE && 0 <= cy < GRID_SIZE && 0 <= cz < GRID_SIZE ==>
        grid[cx, cy, cz] ==
          (if WindowLo(c.x, r) <= cx < x && IsPointInsideSphere(CellCentre(cx, cy, cz), c, r) then 1 else old(grid[cx, cy, cz]))
      decreases WindowHi(c.x, r) + 1 - x
    {
      StampPlane(grid, c, x);
      x := x + 1;
    }
    forall cx, cy, cz | 0 <= cx < GRID_SIZE && 0 <= cy < GRID_SIZE && 0 <= cz < GRID_SIZE &&
      IsPointInsideSphere(CellCentre(cx, cy, cz), c, r)
      ensures WindowLo(c.x, r) <= cx < x
    {
      WindowCovers(c, cx, cy, cz);
    }
  }

  /** The y loop of voxelization, for the plane x of the window. */
  method StampPlane(grid: array3<int>, c: Point, x: int)
    requires IsGrid(grid)
    modifies grid
    ensures forall cx, cy, cz :: 0 <= cx < GRID_SIZE && 0 <= cy < GRID_SIZE && 0 <= cz < GRID_SIZE ==>
      grid[cx, cy, cz] ==
        (if cx == x && IsPointInsideSphere(CellCentre(cx, cy, cz), c, DIST_GAP_SUBSTRATE) then 1
         else old(grid[cx, cy, cz]))
  {
    var r := DIST_GAP_SUBSTRATE;
    var y := WindowLo(c.y, r);
    while y <= WindowHi(c.y, r)
      invariant WindowLo(c.y, r) <= y <= WindowHi(c.y, r) + 1
      invariant forall cx, cy, cz :: 0 <= cx < GRID_SIZE && 0 <= cy < GRID_SIZE && 0 <= cz < GRID_SIZE ==>
        grid[cx, cy, cz] ==
          (if cx == x && WindowLo(c.y, r) <= cy < y && IsPointInsideSphere(CellCentre(cx, cy, cz), c, r) then 1
           else old(grid[cx, cy, cz]))
      decreases WindowHi(c.y, r) + 1 - y
    {
      StampRow(grid, c, x, y);
      y := y + 1;
    }
    forall cx, cy, cz | 0 <= cx < GRID_SIZE && 0 <= cy < GRID_SIZE && 0 <= cz < GRID_SIZE &&
      IsPointInsideSphere(CellCentre(cx, cy, cz), c, r)
      ensures WindowLo(c.y, r) <= cy < y
    {
      WindowCovers(c, cx, cy, cz);
    }
  }

  /** The z loop of voxelization, for the row (x, y) of the window: the cell is written only when
      its indices are in the grid and its point is in the sphere. */
  method StampRow(grid: array3<int>, c: Point, x: int, y: int)
    requires IsGrid(grid)
    modifies grid
    ensures forall cx, cy, cz :: 0 <= cx < GRID_SIZE && 0 <= cy < GRID_SIZE && 0 <= cz < GRID_SIZE ==>
      grid[cx, cy, cz] ==
        (if cx == x && cy == y && IsPointInsideSphere(CellCentre(cx, cy, cz), c, DIST_GAP_SUBSTRATE) then 1
         else old(grid[cx, cy, cz]))
  {
    var r := DIST_GAP_SUBSTRATE;
    var z := WindowLo(c.z, r);
    while z <= WindowHi(c.z, r)
      invariant WindowLo(c.z, r) <= z <= WindowHi(c.z, r) + 1
      invariant forall cx, cy, cz :: 0 <= cx < GRID_SIZE && 0 <= cy < GRID_SIZE && 0 <= cz < GRID_SIZE ==>
        grid[cx, cy, cz] ==
          (if cx == x && cy == y && WindowLo(c.z, r) <= cz < z && IsPointInsideSphere(CellCentre(cx, cy, cz), c, r) then 1
           else old(grid[cx, cy, cz]))
      decreases WindowHi(c.z, r) + 1 - z
    {
      var current := CellCentre(x, y, z);
      if 0 <= x < GRID_SIZE && 0 <= y < GRID_SIZE && 0 <= z < GRID_SIZE &&
         IsPointInsideSphere(current, c, r) {
        grid[x, y, z] := 1;
      }
      z := z + 1;
    }
    forall cx, cy, cz | 0 <= cx < GRID_SIZE && 0 <= cy < GRID_SIZE && 0 <= cz < GRID_SIZE &&
      IsPointInsideSphere(CellCentre(cx, cy, cz), c, r)
      ensures WindowLo(c.z, r) <= cz < z
    {
      WindowCovers(c, cx, cy, cz);
    }
  }
}
