/**
 * Point_t arithmetic and the conversions between space and the voxel grid (src/structurePT.c).
 * Coordinates are exact reals: the model does not round as single-precision floats do.
 */
module Points {
  import opened Constants

  /** A point of space (Point_t). */
  datatype Point = Point(x: real, y: real, z: real)

  /** A voxel index triple (Point3D). */
  datatype Point3D = Point3D(x: int, y: int, z: int)

  /** PT_init: the point with all three coordinates equal to scal. */
  function Init(scal: real): Point
  {
    Point(scal, scal, scal)
  }

  /** PT_add. */
  function Add(a: Point, b: Point): Point
  {
    Point(a.x + b.x, a.y + b.y, a.z + b.z)
  }

  /** PT_sub. */
  function Sub(a: Point, b: Point): Point
  {
    Point(a.x - b.x, a.y - b.y, a.z - b.z)
  }

  /** PT_mul. */
  function Mul(a: Point, scal: real): Point
  {
    Point(scal * a.x, scal * a.y, scal * a.z)
  }

  /** PT_div: the origin when dividing by 0. */
  function Div(a: Point, scal: real): Point
  {
    if scal == 0.0 then Init(0.0) else Point(a.x / scal, a.y / scal, a.z / scal)
  }

  /** PT_merge: the componentwise midpoint. */
  function Merge(a: Point, b: Point): Point
  {
    Point((a.x + b.x) / 2.0, (a.y + b.y) / 2.0, (a.z + b.z) / 2.0)
  }

  /** PT_equal: 1 when the three coordinates agree, 0 otherwise. */
  function Equal(a: Point, b: Point): int
  {
    if a.x == b.x && a.y == b.y && a.z == b.z then 1 else 0
  }

  /** PT_compare: the truth value of the same three comparisons. */
  function Compare(a: Point, b: Point): int
  {
    if a.x == b.x && a.y == b.y && a.z == b.z then 1 else 0
  }

  /** The squared Euclidean distance; dist of src/util.c is its square root. */
  function SqDist(a: Point, b: Point): real
  {
    (a.x - b.x) * (a.x - b.x) + (a.y - b.y) * (a.y - b.y) + (a.z - b.z) * (a.z - b.z)
  }

  /** dist(a, b) < d for a non-negative d, compared on squares as distInf of src/util.c does. */
  predicate DistInf(a: Point, b: Point, d: real)
  {
    SqDist(a, b) < d * d
  }

  /** dist(a, b) > d for a non-negative d. */
  predicate DistSup(a: Point, b: Point, d: real)
  {
    SqDist(a, b) > d * d
  }

  /** Adding then subtracting b gives a back; subtracting then adding too. */
  lemma AddSubInverse(a: Point, b: Point)
    ensures Sub(Add(a, b), b) == a && Add(Sub(a, b), b) == a
  {
  }

  /** Dividing by a non-zero scalar undoes multiplying by it; dividing by 0 loses the point. */
  lemma DivUndoesMul(a: Point, scal: real)
    ensures scal != 0.0 ==> Div(Mul(a, scal), scal) == a
    ensures Div(a, 0.0) == Point(0.0, 0.0, 0.0)
  {
    if scal != 0.0 {
      assert scal * a.x / scal == a.x && scal * a.y / scal == a.y && scal * a.z / scal == a.z;
    }
  }

  /** The midpoint is symmetric, lies halfway, and merging a point with itself gives it back. */
  lemma MergeFacts(a: Point, b: Point)
    ensures Merge(a, b) == Merge(b, a)
    ensures Merge(a, a) == a
    ensures Merge(a, b) == Mul(Add(a, b), 0.5)
    ensures Sub(Merge(a, b), a) == Sub(b, Merge(a, b))
  {
  }

  /** PT_equal and PT_compare agree, and both hold exactly for equal points. */
  lemma EqualMeansSame(a: Point, b: Point)
    ensures Equal(a, b) == Compare(a, b)
    ensures Equal(a, b) == 1 <==> a == b
    ensures Equal(a, b) == 0 <==> a != b
  {
  }

  /** The C conversion (int) of a real: truncation toward zero. */
  function TruncToInt(r: real): (n: int)
    ensures r >= 0.0 ==> n as real <= r < n as real + 1.0
    ensures r < 0.0 ==> n as real - 1.0 < r <= n as real
  {
    if r >= 0.0 then r.Floor else -((-r).Floor)
  }

  /** The value C's integer abs returns for START_GRID. */
  const GRID_OFFSET: real := 30.0

  /** One coordinate of createPoint3D: the grid index, forced into [0, GRID_SIZE - 1]. */
  function GridIndex(c: real): int
  {
    var i := TruncToInt((GRID_OFFSET + c) / LENGTH_GRID);
    if i < 0 then 0 else if i >= GRID_SIZE then GRID_SIZE - 1 else i
  }

  /** createPoint3D. */
  function ToGrid(p: Point): Point3D
  {
    Point3D(GridIndex(p.x), GridIndex(p.y), GridIndex(p.z))
  }

  /** createPoint_t: the space coordinates of a grid index. */
  function FromGrid(q: Point3D): Point
  {
    Point(START_GRID + q.x as real * LENGTH_GRID, START_GRID + q.y as real * LENGTH_GRID,
          START_GRID + q.z as real * LENGTH_GRID)
  }

  /** An index triple inside the grid. */
  predicate InGrid(q: Point3D)
  {
    0 <= q.x < GRID_SIZE && 0 <= q.y < GRID_SIZE && 0 <= q.z < GRID_SIZE
  }

  /** createPoint3D always lands inside the grid. */
  lemma ToGridInGrid(p: Point)
    ensures InGrid(ToGrid(p))
  {
  }

  /** A coordinate whose truncated index is in range is not moved by the clamp. */
  lemma GridIndexExact(c: real)
    requires 0.0 <= (GRID_OFFSET + c) / LENGTH_GRID < GRID_SIZE as real
    ensures GridIndex(c) == TruncToInt((GRID_OFFSET + c) / LENGTH_GRID)
    ensures GridIndex(c) as real <= (GRID_OFFSET + c) / LENGTH_GRID < GridIndex(c) as real + 1.0
  {
  }

  /** One coordinate of the grid round trip. */
  lemma GridIndexOfCentre(i: int)
    requires 0 <= i < GRID_SIZE
    ensures GridIndex(START_GRID + i as real * LENGTH_GRID) == i
  {
    var c := START_GRID + i as real * LENGTH_GRID;
    assert GRID_OFFSET + c == i as real * LENGTH_GRID;
    assert (GRID_OFFSET + c) / LENGTH_GRID == i as real;
    assert (i as real).Floor == i;
  }

  /** In exact arithmetic, converting a grid index to space and back gives the index again. */
  lemma GridRoundTrip(q: Point3D)
    requires InGrid(q)
    ensures ToGrid(FromGrid(q)) == q
  {
    GridIndexOfCentre(q.x);
    GridIndexOfCentre(q.y);
    GridIndexOfCentre(q.z);
  }
}
