/**
 * The obstacle-avoiding distance of src/pathFinding.c: a search over the 26-connected voxel grid
 * (Dijkstra, or A* with the voxel-distance heuristic) that keeps its frontier in the indexed
 * node heap and its per-voxel state (best distance, heap position) in a GRID_SIZE³ voxel map.
 */
module PathFinding {
  import opened Constants
  import opened Points
  import opened NodeHeaps
  import opened Voxelization

  /** The heap position of a voxel never queued (-__INT_MAX__). */
  const UNSEEN: int := -0x7fff_ffff

  /** The distance of a voxel never reached (__FLT_MAX__). */
  const FLT_MAX: real := 340282346638528859811704183484516925440.0

  /** sqrt(2) and sqrt(3), to the precision of a double. */
  const SQRT_2: real := 1.4142135623730951
  const SQRT_3: real := 1.7320508075688772

  /** Number of voxels in the grid. */
  const GRID_CELLS: int := GRID_SIZE * GRID_SIZE * GRID_SIZE

  /** isPointGoal. */
  predicate IsPointGoal(point: Point3D, goal: Point3D)
  {
    point.x == goal.x && point.y == goal.y && point.z == goal.z
  }

  /** isPointValid: every coordinate in [0, GRID_SIZE). */
  predicate IsPointValid(point: Point3D)
  {
    0 <= point.x < GRID_SIZE && 0 <= point.y < GRID_SIZE && 0 <= point.z < GRID_SIZE
  }

  /** isPointTraversable: the voxel is not occupied by the substrate. */
  predicate IsPointTraversable(point: Point3D, grid: array3<int>)
    reads grid
    requires IsGrid(grid) && IsPointValid(point)
  {
    grid[point.x, point.y, point.z] == 0
  }

  /** isPointGoal is equality of points; isPointValid is membership of the voxel map. */
  lemma PointTests(p: Point3D, q: Point3D, vm: array3<Cell>)
    requires IsVoxelMap(vm)
    ensures IsPointGoal(p, q) <==> p == q
    ensures IsPointValid(p) <==> InMap(vm, p)
  {
  }

  /** A voxel map of the right shape. */
  predicate IsVoxelMap(vm: array3<Cell>)
  {
    vm.Length0 == GRID_SIZE && vm.Length1 == GRID_SIZE && vm.Length2 == GRID_SIZE
  }

  function Abs(i: int): nat
  {
    if i < 0 then -i else i
  }

  /** How many coordinates differ between a and b. */
  function ChangedAxes(a: Point3D, b: Point3D): nat
  {
    (if a.x != b.x then 1 else 0) + (if a.y != b.y then 1 else 0) + (if a.z != b.z then 1 else 0)
  }

  /** b is one of the 26 neighbours of a. */
  predicate Adjacent(a: Point3D, b: Point3D)
  {
    a != b && Abs(a.x - b.x) <= 1 && Abs(a.y - b.y) <= 1 && Abs(a.z - b.z) <= 1
  }

  /** cost: the length of a step, chosen by the sum of the coordinate differences. */
  function Cost(a: Point3D, b: Point3D): (c: real)
    ensures c >= LENGTH_GRID > 0.0
  {
    var sum := Abs(a.x - b.x) + Abs(a.y - b.y) + Abs(a.z - b.z);
    if sum == 3 then SQRT_3 * LENGTH_GRID
    else if sum == 2 then SQRT_2 * LENGTH_GRID
    else LENGTH_GRID
  }

  /** Between neighbours the step length depends only on how many axes change: one gives
      LENGTH_GRID, two give √2·LENGTH_GRID, three give √3·LENGTH_GRID; it is symmetric. */
  lemma CostByAxes(a: Point3D, b: Point3D)
    requires Adjacent(a, b)
    ensures 1 <= ChangedAxes(a, b) <= 3
    ensures ChangedAxes(a, b) == 1 ==> Cost(a, b) == LENGTH_GRID
    ensures ChangedAxes(a, b) == 2 ==> Cost(a, b) == SQRT_2 * LENGTH_GRID
    ensures ChangedAxes(a, b) == 3 ==> Cost(a, b) == SQRT_3 * LENGTH_GRID
    ensures Cost(a, b) == Cost(b, a)
  {
  }

  function RealAbs(r: real): real
  {
    if r < 0.0 then -r else r
  }

  /** The per-axis distance between the points two voxels stand for. */
  function AxisGap(a: int, b: int): (d: real)
    ensures d >= 0.0
  {
    RealAbs((START_GRID + a as real * LENGTH_GRID) - (START_GRID + b as real * LENGTH_GRID))
  }

  /** The voxel-distance formula over three per-axis distances: (√3−√2)·dmin + (√2−1)·dmid +
      dmax, with dmax and dmin picked as voxelDist picks them. */
  function Spread(deltaX: real, deltaY: real, deltaZ: real): real
  {
    var dmax := if deltaX > deltaY then (if deltaX > deltaZ then deltaX else deltaZ)
                else (if deltaY > deltaZ then deltaY else deltaZ);
    var dmin := if deltaX < deltaY then (if deltaX < deltaZ then deltaX else deltaZ)
                else (if deltaY < deltaZ then deltaY else deltaZ);
    var dmid := deltaX + deltaY + deltaZ - dmax - dmin;
    (SQRT_3 - SQRT_2) * dmin + (SQRT_2 - 1.0) * dmid + dmax
  }

  /** voxelDist: the 26-connected grid distance between the points two voxels stand for. */
  function VoxelDist(a: Point3D, b: Point3D): real
  {
    Spread(AxisGap(a.x, b.x), AxisGap(a.y, b.y), AxisGap(a.z, b.z))
  }

  /** manhattanDistance between the points two voxels stand for. */
  function ManhattanDistance(a: Point3D, b: Point3D): (d: real)
    ensures d >= 0.0
  {
    AxisGap(a.x, b.x) + AxisGap(a.y, b.y) + AxisGap(a.z, b.z)
  }

  /** The formula lies between the largest of the three distances and their sum, and is zero
      when they all are. */
  lemma SpreadBounds(dx: real, dy: real, dz: real)
    requires dx >= 0.0 && dy >= 0.0 && dz >= 0.0
    ensures dx <= Spread(dx, dy, dz) && dy <= Spread(dx, dy, dz) && dz <= Spread(dx, dy, dz)
    ensures Spread(dx, dy, dz) <= dx + dy + dz
    ensures dx == dy == dz == 0.0 ==> Spread(dx, dy, dz) == 0.0
  {
  }

  /** The voxel distance is symmetric, zero from a voxel to itself, at least the largest
      per-axis distance and at most the Manhattan distance. */
  lemma VoxelDistBounds(a: Point3D, b: Point3D)
    ensures VoxelDist(a, b) == VoxelDist(b, a)
    ensures VoxelDist(a, a) == 0.0
    ensures AxisGap(a.x, b.x) <= VoxelDist(a, b) && AxisGap(a.y, b.y) <= VoxelDist(a, b)
    ensures AxisGap(a.z, b.z) <= VoxelDist(a, b)
    ensures VoxelDist(a, b) <= ManhattanDistance(a, b)
  {
    assert AxisGap(a.x, b.x) == AxisGap(b.x, a.x) && AxisGap(a.y, b.y) == AxisGap(b.y, a.y);
    assert AxisGap(a.z, b.z) == AxisGap(b.z, a.z);
    SpreadBounds(AxisGap(a.x, b.x), AxisGap(a.y, b.y), AxisGap(a.z, b.z));
    SpreadBounds(AxisGap(a.x, a.x), AxisGap(a.y, a.y), AxisGap(a.z, a.z));
  }

  /** The voxel-distance weights applied to three distances in the given order. */
  function Weighted(d1: real, d2: real, d3: real): real
  {
    d1 + (SQRT_2 - 1.0) * d2 + (SQRT_3 - SQRT_2) * d3
  }

  /** The formula gives the largest weight to the largest distance and the smallest to the
      smallest, so it is one of the six weighted sums over the orders of the three distances
      and no smaller than any of them. */
  lemma SpreadIsLargest(d1: real, d2: real, d3: real)
    ensures Weighted(d1, d2, d3) <= Spread(d1, d2, d3) && Weighted(d1, d3, d2) <= Spread(d1, d2, d3)
    ensures Weighted(d2, d1, d3) <= Spread(d1, d2, d3) && Weighted(d2, d3, d1) <= Spread(d1, d2, d3)
    ensures Weighted(d3, d1, d2) <= Spread(d1, d2, d3) && Weighted(d3, d2, d1) <= Spread(d1, d2, d3)
    ensures Spread(d1, d2, d3) == Weighted(d1, d2, d3) || Spread(d1, d2, d3) == Weighted(d1, d3, d2) ||
            Spread(d1, d2, d3) == Weighted(d2, d1, d3) || Spread(d1, d2, d3) == Weighted(d2, d3, d1) ||
            Spread(d1, d2, d3) == Weighted(d3, d1, d2) || Spread(d1, d2, d3) == Weighted(d3, d2, d1)
  {
  }

  /** The formula is subadditive: bounding each distance by a sum of two bounds the whole. */
  lemma SpreadSubadditive(x1: real, x2: real, x3: real, y1: real, y2: real, y3: real,
                          z1: real, z2: real, z3: real)
    requires x1 <= y1 + z1 && x2 <= y2 + z2 && x3 <= y3 + z3
    ensures Spread(x1, x2, x3) <= Spread(y1, y2, y3) + Spread(z1, z2, z3)
  {
    SpreadIsLargest(x1, x2, x3);
    SpreadIsLargest(y1, y2, y3);
    SpreadIsLargest(z1, z2, z3);
  }

  /** The per-axis distance obeys the triangle inequality. */
  lemma AxisTriangle(a: int, b: int, c: int)
    ensures AxisGap(a, c) <= AxisGap(a, b) + AxisGap(b, c)
  {
  }

  /** Between neighbours the voxel distance is the cost of the step. */
  lemma VoxelDistStep(p: Point3D, q: Point3D)
    requires Adjacent(p, q)
    ensures VoxelDist(p, q) == Cost(p, q)
  {
    CostByAxes(p, q);
    AxisStep(p.x, q.x);
    AxisStep(p.y, q.y);
    AxisStep(p.z, q.z);
  }

  /** Along one axis, a step of at most one voxel spans LENGTH_GRID or nothing. */
  lemma AxisStep(a: int, b: int)
    requires Abs(a - b) <= 1
    ensures AxisGap(a, b) == if a == b then 0.0 else LENGTH_GRID
  {
    var d := (START_GRID + a as real * LENGTH_GRID) - (START_GRID + b as real * LENGTH_GRID);
    assert d == (a - b) as real * LENGTH_GRID;
    if a == b + 1 {
      assert d == LENGTH_GRID;
    } else if b == a + 1 {
      assert d == -LENGTH_GRID;
    }
  }

  /** A heuristic that never drops by more than the cost of a step between neighbours
      (a consistent, or monotone, heuristic). */
  ghost predicate Consistent(h: Point3D -> real)
  {
    forall p, q :: Adjacent(p, q) ==> h(p) <= Cost(p, q) + h(q)
  }

  /** The voxel distance to a fixed goal is consistent: it obeys the triangle inequality and
      equals the step cost between neighbours. */
  lemma VoxelDistConsistent(goal: Point3D, h: Point3D -> real)
    requires forall p :: h(p) == VoxelDist(p, goal)
    ensures Consistent(h)
  {
    forall p, q | Adjacent(p, q)
      ensures h(p) <= Cost(p, q) + h(q)
    {
      VoxelDistStep(p, q);
      AxisTriangle(p.x, q.x, goal.x);
      AxisTriangle(p.y, q.y, goal.y);
      AxisTriangle(p.z, q.z, goal.z);
      SpreadSubadditive(AxisGap(p.x, goal.x), AxisGap(p.y, goal.y), AxisGap(p.z, goal.z),
                        AxisGap(p.x, q.x), AxisGap(p.y, q.y), AxisGap(p.z, q.z),
                        AxisGap(q.x, goal.x), AxisGap(q.y, goal.y), AxisGap(q.z, goal.z));
    }
  }

  /** Dijkstra's zero heuristic is consistent, every step costing more than zero. */
  lemma ZeroConsistent(h: Point3D -> real)
    requires forall p :: h(p) == 0.0
    ensures Consistent(h)
  {
    forall p, q | Adjacent(p, q)
      ensures h(p) <= Cost(p, q) + h(q)
    {
    }
  }

  /** A walk through the grid from its first voxel: every voxel in the grid, every step to one
      of the 26 neighbours, and every voxel after the first unoccupied (the start is never
      tested). */
  ghost predicate IsFreePath(grid: array3<int>, path: seq<Point3D>)
    reads grid
    requires IsGrid(grid)
  {
    |path| >= 1 &&
    (forall i :: 0 <= i < |path| ==> IsPointValid(path[i])) &&
    (forall i :: 1 <= i < |path| ==> IsPointValid(path[i]) && IsPointTraversable(path[i], grid)) &&
    (forall i :: 0 <= i < |path| - 1 ==> Adjacent(path[i], path[i + 1]))
  }

  /** The sum of the step costs along a walk. */
  function PathCost(path: seq<Point3D>): real
    decreases |path|
  {
    if |path| <= 1 then 0.0
    else PathCost(path[..|path| - 1]) + Cost(path[|path| - 2], path[|path| - 1])
  }

  /** The voxel p can be reached from start by a free walk of cost g. */
  ghost predicate Reached(grid: array3<int>, start: Point3D, p: Point3D, g: real)
    reads grid
    requires IsGrid(grid)
  {
    exists path :: Walk(grid, start, p, g, path)
  }

  /** path is a free walk from start to p of cost g. */
  ghost predicate Walk(grid: array3<int>, start: Point3D, p: Point3D, g: real, path: seq<Point3D>)
    reads grid
    requires IsGrid(grid)
  {
    IsFreePath(grid, path) && path[0] == start && path[|path| - 1] == p && PathCost(path) == g
  }

  /** A walk never costs less than zero. */
  lemma {:induction false} PathCostNonnegative(path: seq<Point3D>)
    ensures PathCost(path) >= 0.0
    decreases |path|
  {
    if |path| > 1 {
      PathCostNonnegative(path[..|path| - 1]);
    }
  }

  /** The start is reached at cost zero. */
  lemma ReachedStart(grid: array3<int>, start: Point3D)
    requires IsGrid(grid) && IsPointValid(start)
    ensures Reached(grid, start, start, 0.0)
  {
    assert Walk(grid, start, start, 0.0, [start]);
  }

  /** One more step to a free neighbour extends a walk by the cost of that step. */
  lemma ReachedStep(grid: array3<int>, start: Point3D, p: Point3D, g: real, q: Point3D)
    requires IsGrid(grid) && Reached(grid, start, p, g)
    requires Adjacent(p, q) && IsPointValid(q) && IsPointTraversable(q, grid)
    ensures Reached(grid, start, q, g + Cost(p, q))
  {
    var path :| Walk(grid, start, p, g, path);
    ExtendPath(grid, path, q);
    assert (path + [q])[0] == start;
    assert Walk(grid, start, q, g + Cost(p, q), path + [q]);
  }

  /** A free walk followed by a step to a free neighbour of its last voxel is a free walk,
      longer by the cost of that step. */
  lemma ExtendPath(grid: array3<int>, path: seq<Point3D>, q: Point3D)
    requires IsGrid(grid) && IsFreePath(grid, path)
    requires Adjacent(path[|path| - 1], q) && IsPointValid(q) && IsPointTraversable(q, grid)
    ensures IsFreePath(grid, path + [q])
    ensures PathCost(path + [q]) == PathCost(path) + Cost(path[|path| - 1], q)
  {
    VoxelsExtend(grid, path, q);
    StepsExtend(path, q);
    CostExtend(path, q);
  }

  /** Appending a voxel adds the cost of the step to it. */
  lemma CostExtend(path: seq<Point3D>, q: Point3D)
    requires |path| >= 1
    ensures PathCost(path + [q]) == PathCost(path) + Cost(path[|path| - 1], q)
  {
    assert (path + [q])[..|path|] == path;
  }

  /** Appending a free voxel keeps every voxel in the grid and every voxel after the first free. */
  lemma VoxelsExtend(grid: array3<int>, path: seq<Point3D>, q: Point3D)
    requires IsGrid(grid) && |path| >= 1 && IsPointValid(q) && IsPointTraversable(q, grid)
    requires forall i :: 0 <= i < |path| ==> IsPointValid(path[i])
    requires forall i :: 1 <= i < |path| ==> IsPointValid(path[i]) && IsPointTraversable(path[i], grid)
    ensures forall i :: 0 <= i < |path + [q]| ==> IsPointValid((path + [q])[i])
    ensures forall i :: 1 <= i < |path + [q]| ==>
      IsPointValid((path + [q])[i]) && IsPointTraversable((path + [q])[i], grid)
  {
    forall i | 0 <= i < |path + [q]|
      ensures IsPointValid((path + [q])[i])
      ensures i >= 1 ==> IsPointTraversable((path + [q])[i], grid)
    {
      if i < |path| {
        assert (path + [q])[i] == path[i];
      }
    }
  }

  /** Appending a neighbour of the last voxel keeps every step between neighbours. */
  lemma StepsExtend(path: seq<Point3D>, q: Point3D)
    requires |path| >= 1 && Adjacent(path[|path| - 1], q)
    requires forall i :: 0 <= i < |path| - 1 ==> Adjacent(path[i], path[i + 1])
    ensures forall i :: 0 <= i < |path + [q]| - 1 ==> Adjacent((path + [q])[i], (path + [q])[i + 1])
  {
    var longer := path + [q];
    forall i | 0 <= i < |longer| - 1
      ensures Adjacent(longer[i], longer[i + 1])
    {
      if i < |path| - 1 {
        assert longer[i] == path[i] && longer[i + 1] == path[i + 1];
      }
    }
  }

  /** Whatever is reached is the start or an unoccupied voxel, at a cost of at least zero. */
  lemma ReachedFacts(grid: array3<int>, start: Point3D, p: Point3D, g: real)
    requires IsGrid(grid) && Reached(grid, start, p, g)
    ensures IsPointValid(p) && (p == start || IsPointTraversable(p, grid))
    ensures g >= 0.0
  {
    var path :| Walk(grid, start, p, g, path);
    PathCostNonnegative(path);
  }

  /** A number for each voxel, different for different voxels. */
  function Code(p: Point3D): int
  {
    p.x * 2601 + p.y * 51 + p.z
  }

  /** Different voxels of the grid have different numbers. */
  lemma CodeInjective(p: Point3D, q: Point3D)
    requires IsPointValid(p) && IsPointValid(q) && Code(p) == Code(q)
    ensures p == q
  {
    assert p.y * 51 + p.z <= 2600 && q.y * 51 + q.z <= 2600;
    assert p.x == q.x;
    assert p.y == q.y;
  }

  /** A set of voxels whose numbers are below n has at most n members. */
  lemma {:induction false} CodeBound(s: set<Point3D>, n: nat)
    requires forall p | p in s :: IsPointValid(p) && 0 <= Code(p) < n
    ensures |s| <= n
    decreases n
  {
    if n > 0 {
      var t := set p | p in s && Code(p) < n - 1;
      CodeBound(t, n - 1);
      var rest := s - t;
      if rest != {} {
        var p :| p in rest;
        forall q | q in rest
          ensures q == p
        {
          CodeInjective(p, q);
        }
        assert rest == {p};
      }
      assert s == t + rest;
    } else {
      assert s == {};
    }
  }

  /** No set of grid voxels has more than GRID_CELLS members. */
  lemma GridCard(s: set<Point3D>)
    requires forall p | p in s :: IsPointValid(p)
    ensures |s| <= GRID_CELLS
  {
    CodeBound(s, GRID_CELLS);
  }

  /** path is a free walk from start to goal. */
  ghost predicate Connects(grid: array3<int>, start: Point3D, goal: Point3D, path: seq<Point3D>)
    reads grid
    requires IsGrid(grid)
  {
    IsFreePath(grid, path) && path[0] == start && path[|path| - 1] == goal
  }

  /** Cutting a walk at one of its voxels splits its cost between the two parts. */
  lemma {:induction false} PathCostSplit(path: seq<Point3D>, i: nat)
    requires i < |path|
    ensures PathCost(path) == PathCost(path[..i + 1]) + PathCost(path[i..])
    decreases |path|
  {
    var n := |path|;
    if i < n - 1 {
      var init := path[..n - 1];
      PathCostSplit(init, i);
      assert init[..i + 1] == path[..i + 1];
      var tail := path[i..];
      assert tail[..|tail| - 1] == init[i..];
      assert tail[|tail| - 2] == path[n - 2] && tail[|tail| - 1] == path[n - 1];
    } else {
      assert path[..i + 1] == path;
    }
  }

  /** Along a walk, a consistent heuristic drops by at most the cost of the walk. */
  lemma {:induction false} HeuristicAlong(h: Point3D -> real, path: seq<Point3D>)
    requires Consistent(h) && |path| >= 1
    requires forall i :: 0 <= i < |path| - 1 ==> Adjacent(path[i], path[i + 1])
    ensures h(path[0]) <= PathCost(path) + h(path[|path| - 1])
    decreases |path|
  {
    if |path| > 1 {
      var init := path[..|path| - 1];
      forall i | 0 <= i < |init| - 1
        ensures Adjacent(init[i], init[i + 1])
      {
        assert init[i] == path[i] && init[i + 1] == path[i + 1];
      }
      HeuristicAlong(h, init);
      assert Adjacent(path[|path| - 2], path[|path| - 1]);
    }
  }

  /** The longest step, along three axes at once. */
  const MAX_STEP: real := SQRT_3 * LENGTH_GRID

  /** No step is longer than MAX_STEP. */
  lemma CostBelowMax(a: Point3D, b: Point3D)
    ensures Cost(a, b) <= MAX_STEP
  {
  }

  /** A bound on every distance recorded while k voxels are closed: k of the longest steps. */
  function Bound(k: int): real
  {
    k as real * MAX_STEP
  }

  /** The distances the voxel map records, by voxel. */
  ghost function DistMap(vm: array3<Cell>): (d: imap<Point3D, real>)
    reads vm
    ensures forall p :: p in d <==> InMap(vm, p)
    ensures forall p | InMap(vm, p) :: d[p] == vm[p.x, p.y, p.z].dist
  {
    imap p | InMap(vm, p) :: vm[p.x, p.y, p.z].dist
  }

  /** A heap node is sound: its voxel is in the grid and was reached by a walk of cost g, which
      is the distance D records for it; its h is the heuristic of its voxel and f = g + h. */
  ghost predicate Good(grid: array3<int>, D: imap<Point3D, real>, start: Point3D, h: Point3D -> real,
                       n: Node)
    reads grid
    requires IsGrid(grid)
  {
    IsPointValid(n.point) && n.point in D && D[n.point] == n.g && n.h == h(n.point) &&
    n.f == n.g + n.h && Reached(grid, start, n.point, n.g)
  }

  /** Every node of c is sound. */
  ghost predicate Sound(grid: array3<int>, D: imap<Point3D, real>, start: Point3D, h: Point3D -> real,
                        c: multiset<Node>)
    reads grid
    requires IsGrid(grid)
  {
    forall n {:trigger Good(grid, D, start, h, n)} | n in c :: Good(grid, D, start, h, n)
  }

  /** unseen holds the voxels never queued, which are those whose map cell holds UNSEEN; every
      other cell holds a real heap position or -1. */
  ghost predicate Marks(vm: array3<Cell>, unseen: set<Point3D>)
    reads vm
    requires IsVoxelMap(vm)
  {
    (forall p | p in unseen :: IsPointValid(p)) &&
    forall x, y, z :: 0 <= x < GRID_SIZE && 0 <= y < GRID_SIZE && 0 <= z < GRID_SIZE ==>
      (Point3D(x, y, z) in unseen <==> vm[x, y, z].indexHeap == UNSEEN) &&
      (vm[x, y, z].indexHeap == UNSEEN || vm[x, y, z].indexHeap >= -1)
  }

  /** The state the search keeps in its heap and voxel map: a well-formed heap, the voxels
      never queued, and room in the heap for every one of them. */
  ghost predicate Frontier(heap: NodeHeap, vm: array3<Cell>, unseen: set<Point3D>)
    reads heap, heap.node, vm
  {
    IsVoxelMap(vm) && heap.node.Length == GRID_CELLS + 1 && 0 <= heap.size < heap.node.Length &&
    HeapOrder(heap.node[..], heap.size) && Indexed(heap.node[..], heap.size, vm) &&
    Marks(vm, unseen) && heap.size + |unseen| <= GRID_CELLS
  }

  /** Some node of c is of the voxel p. */
  ghost predicate Held(c: multiset<Node>, p: Point3D)
  {
    exists n | n in c :: n.point == p
  }

  /** The node n is of a voxel neither closed nor unseen, and its f is at least level. */
  ghost predicate Ahead(unseen: set<Point3D>, closed: set<Point3D>, level: real, n: Node)
  {
    n.point !in closed && n.point !in unseen && level <= n.f
  }

  /** Every voxel of the grid neither unseen nor closed has a node in the heap; no node is of
      a closed or unseen voxel, and none has an f below level. */
  ghost predicate Open(c: multiset<Node>, unseen: set<Point3D>, closed: set<Point3D>, level: real)
  {
    (forall p {:trigger Held(c, p)} | IsPointValid(p) && p !in unseen && p !in closed :: Held(c, p)) &&
    (forall n {:trigger Ahead(unseen, closed, level, n)} | n in c :: Ahead(unseen, closed, level, n))
  }

  /** Every closed voxel is in the grid, was queued, and has a distance whose f is at most
      level. */
  ghost predicate Settled(D: imap<Point3D, real>, h: Point3D -> real, unseen: set<Point3D>,
                          closed: set<Point3D>, level: real)
  {
    forall q | q in closed :: IsPointValid(q) && q in D && q !in unseen && D[q] + h(q) <= level
  }

  /** Every free neighbour of a voxel of done was queued, at a distance no larger than through
      that voxel. */
  ghost predicate Relaxed(grid: array3<int>, D: imap<Point3D, real>, done: set<Point3D>,
                          unseen: set<Point3D>)
    reads grid
    requires IsGrid(grid)
  {
    forall c, p {:trigger Below(D, unseen, c, p)}
      | c in done && Adjacent(c, p) && IsPointValid(p) && IsPointTraversable(p, grid) ::
      Below(D, unseen, c, p)
  }

  /** p was queued at a distance no larger than through c. */
  ghost predicate Below(D: imap<Point3D, real>, unseen: set<Point3D>, c: Point3D, p: Point3D)
  {
    p !in unseen && c in D && p in D && D[p] <= D[c] + Cost(c, p)
  }

  /** The voxels never queued are at FLT_MAX; every other voxel of the map is at most bound. */
  ghost predicate Far(D: imap<Point3D, real>, unseen: set<Point3D>, bound: real)
  {
    (forall p | p in unseen :: p in D && D[p] == FLT_MAX) &&
    (forall p | p in D && p !in unseen :: D[p] <= bound)
  }

  /** The start was queued at distance zero. */
  ghost predicate Origin(D: imap<Point3D, real>, start: Point3D, unseen: set<Point3D>)
  {
    start !in unseen && start in D && D[start] <= 0.0
  }

  /** What the search keeps at the head of its loop, closed being the voxels extracted so far
      and level the f of the last of them. */
  ghost predicate Progressed(grid: array3<int>, start: Point3D, h: Point3D -> real, c: multiset<Node>,
                             D: imap<Point3D, real>, unseen: set<Point3D>, closed: set<Point3D>,
                             level: real)
    reads grid
    requires IsGrid(grid)
  {
    Sound(grid, D, start, h, c) && Open(c, unseen, closed, level) &&
    Settled(D, h, unseen, closed, level) && Relaxed(grid, D, closed, unseen) && Far(D, unseen, Bound(|closed|)) && Origin(D, start, unseen)
  }

  /** The node m just extracted: its voxel is closed at distance g, its f is the level, and one
      more step stays below the distance bound. */
  ghost predicate Hub(grid: array3<int>, start: Point3D, h: Point3D -> real, m: Node,
                      D: imap<Point3D, real>, closed: set<Point3D>, level: real)
    reads grid
    requires IsGrid(grid)
  {
    m.point in closed && IsPointValid(m.point) && m.point in D && D[m.point] == m.g &&
    m.h == h(m.point) && m.f == m.g + m.h && level == m.f && m.g + MAX_STEP <= Bound(|closed|) &&
    Reached(grid, start, m.point, m.g)
  }

  /** What the search keeps while it relaxes the neighbours of m: as at the head of the loop,
      except that only the voxels closed before m are known to be relaxed. */
  ghost predicate Expanding(grid: array3<int>, start: Point3D, h: Point3D -> real, m: Node,
                            c: multiset<Node>, D: imap<Point3D, real>, unseen: set<Point3D>,
                            closed: set<Point3D>, level: real)
    reads grid
    requires IsGrid(grid)
  {
    Sound(grid, D, start, h, c) && Open(c, unseen, closed, level) &&
    Settled(D, h, unseen, closed, level) && Relaxed(grid, D, closed - {m.point}, unseen) && Far(D, unseen, Bound(|closed|)) &&
    Origin(D, start, unseen) && Hub(grid, start, h, m, D, closed, level)
  }

  /** The voxel p offset by dx, dy, dz. */
  function Offset(p: Point3D, dx: int, dy: int, dz: int): Point3D
  {
    Point3D(p.x + dx, p.y + dy, p.z + dz)
  }

  /** q, when it is a free neighbour of m's voxel, was queued at a distance no larger than
      through m. */
  ghost predicate Done(grid: array3<int>, D: imap<Point3D, real>, unseen: set<Point3D>, m: Node,
                       q: Point3D)
    reads grid
    requires IsGrid(grid)
  {
    Adjacent(m.point, q) && IsPointValid(q) && IsPointTraversable(q, grid) ==>
      q !in unseen && q in D && D[q] <= m.g + Cost(m.point, q)
  }

  /** The neighbours of m at offsets dx, dy and dz below e are done. */
  ghost predicate RowDone(grid: array3<int>, D: imap<Point3D, real>, unseen: set<Point3D>, m: Node,
                          dx: int, dy: int, e: int)
    reads grid
    requires IsGrid(grid)
  {
    forall dz | -1 <= dz < e :: Done(grid, D, unseen, m, Offset(m.point, dx, dy, dz))
  }

  /** The neighbours of m at offsets dx and dy below e are done. */
  ghost predicate PlaneDone(grid: array3<int>, D: imap<Point3D, real>, unseen: set<Point3D>, m: Node,
                            dx: int, e: int)
    reads grid
    requires IsGrid(grid)
  {
    forall dy | -1 <= dy < e :: RowDone(grid, D, unseen, m, dx, dy, 2)
  }

  /** The neighbours of m at offsets dx below e are done. */
  ghost predicate CubeDone(grid: array3<int>, D: imap<Point3D, real>, unseen: set<Point3D>, m: Node,
                           e: int)
    reads grid
    requires IsGrid(grid)
  {
    forall dx | -1 <= dx < e :: PlaneDone(grid, D, unseen, m, dx, 2)
  }

  /** From D0 to D1 no distance grew and no voxel left the map. */
  ghost predicate Dropped(D0: imap<Point3D, real>, D1: imap<Point3D, real>)
  {
    forall p | p in D0 :: p in D1 && D1[p] <= D0[p]
  }

  lemma DroppedTrans(D0: imap<Point3D, real>, D1: imap<Point3D, real>, D2: imap<Point3D, real>)
    requires Dropped(D0, D1) && Dropped(D1, D2)
    ensures Dropped(D0, D2)
  {
  }

  /** A done neighbour stays done while distances drop and voxels get queued. */
  lemma DonePersists(grid: array3<int>, D0: imap<Point3D, real>, D1: imap<Point3D, real>,
                     u0: set<Point3D>, u1: set<Point3D>, m: Node, q: Point3D)
    requires IsGrid(grid) && Done(grid, D0, u0, m, q) && Dropped(D0, D1) && u1 <= u0
    ensures Done(grid, D1, u1, m, q)
  {
  }

  /** Relaxing the neighbour at dz keeps the done ones of the row done and adds it to them. */
  lemma RowStep(grid: array3<int>, D0: imap<Point3D, real>, D1: imap<Point3D, real>,
                u0: set<Point3D>, u1: set<Point3D>, m: Node, dx: int, dy: int, dz: int)
    requires IsGrid(grid) && RowDone(grid, D0, u0, m, dx, dy, dz) && Dropped(D0, D1) && u1 <= u0
    requires Done(grid, D1, u1, m, Offset(m.point, dx, dy, dz))
    ensures RowDone(grid, D1, u1, m, dx, dy, dz + 1)
  {
    RowPersists(grid, D0, D1, u0, u1, m, dx, dy, dz);
    RowGrows(grid, D1, u1, m, dx, dy, dz);
  }

  /** Relaxing the row at dy keeps the done rows of the plane done and adds it to them. */
  lemma PlaneStep(grid: array3<int>, D0: imap<Point3D, real>, D1: imap<Point3D, real>,
                  u0: set<Point3D>, u1: set<Point3D>, m: Node, dx: int, dy: int)
    requires IsGrid(grid) && PlaneDone(grid, D0, u0, m, dx, dy) && Dropped(D0, D1) && u1 <= u0
    requires RowDone(grid, D1, u1, m, dx, dy, 2)
    ensures PlaneDone(grid, D1, u1, m, dx, dy + 1)
  {
    PlanePersists(grid, D0, D1, u0, u1, m, dx, dy);
  }

  /** Relaxing the plane at dx keeps the done planes done and adds it to them. */
  lemma CubeStep(grid: array3<int>, D0: imap<Point3D, real>, D1: imap<Point3D, real>,
                 u0: set<Point3D>, u1: set<Point3D>, m: Node, dx: int)
    requires IsGrid(grid) && CubeDone(grid, D0, u0, m, dx) && Dropped(D0, D1) && u1 <= u0
    requires PlaneDone(grid, D1, u1, m, dx, 2)
    ensures CubeDone(grid, D1, u1, m, dx + 1)
  {
    CubePersists(grid, D0, D1, u0, u1, m, dx);
  }

  /** Adding the neighbour at dz to the done ones of a row. */
  lemma RowGrows(grid: array3<int>, D: imap<Point3D, real>, unseen: set<Point3D>, m: Node,
                 dx: int, dy: int, dz: int)
    requires IsGrid(grid) && RowDone(grid, D, unseen, m, dx, dy, dz)
    requires Done(grid, D, unseen, m, Offset(m.point, dx, dy, dz))
    ensures RowDone(grid, D, unseen, m, dx, dy, dz + 1)
  {
  }

  /** m's own voxel is not one of its neighbours, so there is nothing to do for it. */
  lemma SelfDone(grid: array3<int>, D: imap<Point3D, real>, unseen: set<Point3D>, m: Node)
    requires IsGrid(grid)
    ensures Done(grid, D, unseen, m, Offset(m.point, 0, 0, 0))
  {
    assert Offset(m.point, 0, 0, 0) == m.point;
  }

  lemma RowPersists(grid: array3<int>, D0: imap<Point3D, real>, D1: imap<Point3D, real>,
                    u0: set<Point3D>, u1: set<Point3D>, m: Node, dx: int, dy: int, e: int)
    requires IsGrid(grid) && RowDone(grid, D0, u0, m, dx, dy, e) && Dropped(D0, D1) && u1 <= u0
    ensures RowDone(grid, D1, u1, m, dx, dy, e)
  {
    forall dz | -1 <= dz < e
      ensures Done(grid, D1, u1, m, Offset(m.point, dx, dy, dz))
    {
      DonePersists(grid, D0, D1, u0, u1, m, Offset(m.point, dx, dy, dz));
    }
  }

  lemma PlanePersists(grid: array3<int>, D0: imap<Point3D, real>, D1: imap<Point3D, real>,
                      u0: set<Point3D>, u1: set<Point3D>, m: Node, dx: int, e: int)
    requires IsGrid(grid) && PlaneDone(grid, D0, u0, m, dx, e) && Dropped(D0, D1) && u1 <= u0
    ensures PlaneDone(grid, D1, u1, m, dx, e)
  {
    forall dy | -1 <= dy < e
      ensures RowDone(grid, D1, u1, m, dx, dy, 2)
    {
      RowPersists(grid, D0, D1, u0, u1, m, dx, dy, 2);
    }
  }

  lemma CubePersists(grid: array3<int>, D0: imap<Point3D, real>, D1: imap<Point3D, real>,
                     u0: set<Point3D>, u1: set<Point3D>, m: Node, e: int)
    requires IsGrid(grid) && CubeDone(grid, D0, u0, m, e) && Dropped(D0, D1) && u1 <= u0
    ensures CubeDone(grid, D1, u1, m, e)
  {
    forall dx | -1 <= dx < e
      ensures PlaneDone(grid, D1, u1, m, dx, 2)
    {
      PlanePersists(grid, D0, D1, u0, u1, m, dx, 2);
    }
  }

  /** Once all 26 neighbours of m are done, the voxels closed before m and m itself are
      relaxed. */
  lemma AllRelaxed(grid: array3<int>, D: imap<Point3D, real>, unseen: set<Point3D>, m: Node,
                   closed: set<Point3D>)
    requires IsGrid(grid) && CubeDone(grid, D, unseen, m, 2)
    requires Relaxed(grid, D, closed - {m.point}, unseen)
    requires m.point in closed && m.point in D && D[m.point] == m.g
    ensures Relaxed(grid, D, closed, unseen)
  {
    forall c, p | c in closed && Adjacent(c, p) && IsPointValid(p) && IsPointTraversable(p, grid)
      ensures Below(D, unseen, c, p)
    {
      if c == m.point {
        var dx, dy, dz := p.x - c.x, p.y - c.y, p.z - c.z;
        assert p == Offset(m.point, dx, dy, dz);
        assert PlaneDone(grid, D, unseen, m, dx, 2);
        assert RowDone(grid, D, unseen, m, dx, dy, 2);
        assert Done(grid, D, unseen, m, p);
      } else {
        assert c in closed - {m.point};
        assert Below(D, unseen, c, p);
      }
    }
  }

  /** A closed neighbour of m is no farther than through m: its f was at most the level, which
      is m's f, and the heuristic drops by at most the cost of the step. */
  lemma ClosedBelow(D: imap<Point3D, real>, h: Point3D -> real, unseen: set<Point3D>,
                    closed: set<Point3D>, level: real, m: Node, q: Point3D)
    requires Settled(D, h, unseen, closed, level) && Consistent(h) && q in closed
    requires Adjacent(m.point, q) && level == m.f && m.f == m.g + m.h && m.h == h(m.point)
    ensures q in D && D[q] <= m.g + Cost(m.point, q)
  {
    assert h(m.point) <= Cost(m.point, q) + h(q);
  }

  /** The distance through m to a neighbour stays within the bound, so below FLT_MAX. */
  lemma TentativeBelow(D: imap<Point3D, real>, h: Point3D -> real, unseen: set<Point3D>,
                       closed: set<Point3D>, level: real, m: Node, q: Point3D)
    requires Settled(D, h, unseen, closed, level) && m.g + MAX_STEP <= Bound(|closed|)
    ensures m.g + Cost(m.point, q) <= Bound(|closed|) < FLT_MAX
  {
    GridCard(closed);
    CostBelowMax(m.point, q);
  }

  /** Extracting m, a node of least f whose voxel has no other node, keeps the invariant: m's
      voxel is closed at level m.f, and the rest of the heap stays open and sound. */
  lemma ExtractedKeeps(grid: array3<int>, start: Point3D, h: Point3D -> real, c: multiset<Node>,
                       m: Node, D: imap<Point3D, real>, unseen: set<Point3D>,
                       closed: set<Point3D>, level: real)
    requires IsGrid(grid) && Progressed(grid, start, h, c + multiset{m}, D, unseen, closed, level)
    requires forall n | n in c :: m.f <= n.f && n.point != m.point
    ensures m.point !in closed
    ensures Expanding(grid, start, h, m, c, D, unseen, closed + {m.point}, m.f)
  {
    ExtractedNodes(grid, start, h, c, m, D, unseen, closed, level);
    var closed' := closed + {m.point};
    assert |closed'| == |closed| + 1;
    assert Bound(|closed'|) == Bound(|closed|) + MAX_STEP;
    assert closed' - {m.point} == closed;
  }

  /** Taking m, a node of least f whose voxel has no other node, out of the heap leaves the
      rest sound, and open with m's voxel closed at level m.f. */
  lemma ExtractedNodes(grid: array3<int>, start: Point3D, h: Point3D -> real, c: multiset<Node>,
                       m: Node, D: imap<Point3D, real>, unseen: set<Point3D>,
                       closed: set<Point3D>, level: real)
    requires IsGrid(grid) && Sound(grid, D, start, h, c + multiset{m})
    requires Open(c + multiset{m}, unseen, closed, level)
    requires forall n | n in c :: m.f <= n.f && n.point != m.point
    ensures Good(grid, D, start, h, m) && Ahead(unseen, closed, level, m)
    ensures Sound(grid, D, start, h, c) && Open(c, unseen, closed + {m.point}, m.f)
  {
    var c0 := c + multiset{m};
    assert m in c0;
    var closed' := closed + {m.point};
    forall n | n in c
      ensures Good(grid, D, start, h, n) && Ahead(unseen, closed', m.f, n)
    {
      assert n in c0;
      assert Good(grid, D, start, h, n) && Ahead(unseen, closed, level, n);
    }
    forall p | IsPointValid(p) && p !in unseen && p !in closed'
      ensures Held(c, p)
    {
      assert Held(c0, p);
      var n :| n in c0 && n.point == p;
      assert n in c;
    }
  }

  /** Lowering the distance of a voxel q outside done, and shrinking unseen, keeps done
      relaxed. */
  lemma RelaxedKept(grid: array3<int>, D: imap<Point3D, real>, done: set<Point3D>,
                    u0: set<Point3D>, u1: set<Point3D>, q: Point3D, g: real)
    requires IsGrid(grid) && Relaxed(grid, D, done, u0) && q !in done && u1 <= u0
    requires q in D && g <= D[q]
    ensures Relaxed(grid, D[q := g], done, u1)
  {
    forall a, b | a in done && Adjacent(a, b) && IsPointValid(b) && IsPointTraversable(b, grid)
      ensures Below(D[q := g], u1, a, b)
    {
      assert Below(D, u0, a, b);
    }
  }

  /** Queuing p, a free neighbour of m never queued, at its distance through m: the nodes stay
      sound and open. */
  lemma QueuedNodes(grid: array3<int>, start: Point3D, h: Point3D -> real, m: Node,
                    c: multiset<Node>, D: imap<Point3D, real>, unseen: set<Point3D>,
                    closed: set<Point3D>, level: real, p: Node)
    requires IsGrid(grid) && Consistent(h)
    requires Expanding(grid, start, h, m, c, D, unseen, closed, level)
    requires p.point in unseen && Adjacent(m.point, p.point)
    requires IsPointValid(p.point) && IsPointTraversable(p.point, grid)
    requires p.g == m.g + Cost(m.point, p.point) && p.h == h(p.point) && p.f == p.g + p.h
    ensures Sound(grid, D[p.point := p.g], start, h, c + multiset{p})
    ensures Open(c + multiset{p}, unseen - {p.point}, closed, level)
  {
    var D', c', unseen' := D[p.point := p.g], c + multiset{p}, unseen - {p.point};
    assert h(m.point) <= Cost(m.point, p.point) + h(p.point);
    ReachedStep(grid, start, m.point, m.g, p.point);
    forall n | n in c'
      ensures Good(grid, D', start, h, n) && Ahead(unseen', closed, level, n)
    {
      if n != p {
        assert n in c;
        assert Good(grid, D, start, h, n) && Ahead(unseen, closed, level, n);
      }
    }
    forall q | IsPointValid(q) && q !in unseen' && q !in closed
      ensures Held(c', q)
    {
      if q == p.point {
        assert p in c';
      } else {
        assert Held(c, q);
        var n :| n in c && n.point == q;
        assert n in c';
      }
    }
  }

  /** Queuing p, a free neighbour of m never queued, at its distance through m keeps the
      invariant and leaves p's voxel done. */
  lemma QueuedKeeps(grid: array3<int>, start: Point3D, h: Point3D -> real, m: Node,
                    c: multiset<Node>, D: imap<Point3D, real>, unseen: set<Point3D>,
                    closed: set<Point3D>, level: real, p: Node)
    requires IsGrid(grid) && Consistent(h)
    requires Expanding(grid, start, h, m, c, D, unseen, closed, level)
    requires p.point in unseen && Adjacent(m.point, p.point)
    requires IsPointValid(p.point) && IsPointTraversable(p.point, grid)
    requires p.g == m.g + Cost(m.point, p.point) && p.h == h(p.point) && p.f == p.g + p.h
    ensures Expanding(grid, start, h, m, c + multiset{p}, D[p.point := p.g], unseen - {p.point},
                      closed, level)
    ensures Done(grid, D[p.point := p.g], unseen - {p.point}, m, p.point)
    ensures Dropped(D, D[p.point := p.g])
  {
    TentativeBelow(D, h, unseen, closed, level, m, p.point);
    QueuedNodes(grid, start, h, m, c, D, unseen, closed, level, p);
    RelaxedKept(grid, D, closed - {m.point}, unseen, unseen - {p.point}, p.point, p.g);
  }

  /** Lowering the node o of a free neighbour of m, already queued, to its distance through m:
      the nodes stay sound and open. */
  lemma RekeyedNodes(grid: array3<int>, start: Point3D, h: Point3D -> real, m: Node,
                     c: multiset<Node>, D: imap<Point3D, real>, unseen: set<Point3D>,
                     closed: set<Point3D>, level: real, o: Node, v: Node)
    requires IsGrid(grid) && Consistent(h)
    requires Expanding(grid, start, h, m, c, D, unseen, closed, level)
    requires o in c && forall n | n in c - multiset{o} :: n.point != o.point
    requires Adjacent(m.point, o.point) && v.g == m.g + Cost(m.point, o.point) && v.g <= o.g
    requires v == o.(g := v.g, f := v.g + o.h)
    requires IsPointValid(o.point) && IsPointTraversable(o.point, grid)
    ensures Sound(grid, D[o.point := v.g], start, h, c - multiset{o} + multiset{v})
    ensures Open(c - multiset{o} + multiset{v}, unseen, closed, level)
  {
    var D', c' := D[o.point := v.g], c - multiset{o} + multiset{v};
    assert Good(grid, D, start, h, o) && Ahead(unseen, closed, level, o);
    assert h(m.point) <= Cost(m.point, o.point) + h(o.point);
    ReachedStep(grid, start, m.point, m.g, o.point);
    forall n | n in c'
      ensures Good(grid, D', start, h, n) && Ahead(unseen, closed, level, n)
    {
      if n != v {
        assert n in c - multiset{o};
        assert Good(grid, D, start, h, n) && Ahead(unseen, closed, level, n);
      }
    }
    forall q | IsPointValid(q) && q !in unseen && q !in closed
      ensures Held(c', q)
    {
      assert Held(c, q);
      var n :| n in c && n.point == q;
      if q == o.point {
        assert v in c';
      } else {
        assert n != o && n in c - multiset{o};
        assert n in c';
      }
    }
  }

  /** Lowering the node o of a free neighbour of m, already queued, to its distance through m
      keeps the invariant and leaves o's voxel done. */
  lemma RekeyedKeeps(grid: array3<int>, start: Point3D, h: Point3D -> real, m: Node,
                     c: multiset<Node>, D: imap<Point3D, real>, unseen: set<Point3D>,
                     closed: set<Point3D>, level: real, o: Node, v: Node)
    requires IsGrid(grid) && Consistent(h)
    requires Expanding(grid, start, h, m, c, D, unseen, closed, level)
    requires o in c && forall n | n in c - multiset{o} :: n.point != o.point
    requires Adjacent(m.point, o.point) && v.g == m.g + Cost(m.point, o.point) && v.g <= o.g
    requires v == o.(g := v.g, f := v.g + o.h)
    requires IsPointValid(o.point) && IsPointTraversable(o.point, grid)
    ensures Expanding(grid, start, h, m, c - multiset{o} + multiset{v}, D[o.point := v.g], unseen,
                      closed, level)
    ensures Done(grid, D[o.point := v.g], unseen, m, o.point)
    ensures Dropped(D, D[o.point := v.g])
  {
    assert Good(grid, D, start, h, o) && Ahead(unseen, closed, level, o);
    CostBelowMax(m.point, o.point);
    RekeyedNodes(grid, start, h, m, c, D, unseen, closed, level, o, v);
    RelaxedKept(grid, D, closed - {m.point}, unseen, unseen, o.point, v.g);
  }

  /** Along a free walk from the start that ends outside the closed voxels, the first voxel
      not closed was queued at a distance no larger than the cost of the walk up to it. */
  lemma FirstOpen(grid: array3<int>, start: Point3D, h: Point3D -> real, c: multiset<Node>,
                  D: imap<Point3D, real>, unseen: set<Point3D>, closed: set<Point3D>, level: real,
                  w: seq<Point3D>) returns (i: nat)
    requires IsGrid(grid) && Progressed(grid, start, h, c, D, unseen, closed, level)
    requires IsFreePath(grid, w) && w[0] == start && w[|w| - 1] !in closed
    ensures i < |w| && w[i] !in closed && w[i] !in unseen && w[i] in D
    ensures D[w[i]] <= PathCost(w[..i + 1])
  {
    i := 0;
    assert PathCost(w[..1]) == 0.0;
    while w[i] in closed
      invariant i < |w| && w[i] !in unseen && w[i] in D && D[w[i]] <= PathCost(w[..i + 1])
      decreases |w| - i
    {
      var j := i + 1;
      assert Adjacent(w[i], w[j]) && IsPointValid(w[j]) && IsPointTraversable(w[j], grid);
      assert Below(D, unseen, w[i], w[j]);
      assert w[..j + 1] == w[..i + 1] + [w[j]];
      CostExtend(w[..i + 1], w[j]);
      i := j;
    }
  }

  /** While the goal is not closed, every free walk from the start to it is matched by a node
      of the heap whose f is at most the walk's cost plus the heuristic at the goal. */
  lemma GoalBound(grid: array3<int>, start: Point3D, h: Point3D -> real, c: multiset<Node>,
                  D: imap<Point3D, real>, unseen: set<Point3D>, closed: set<Point3D>, level: real,
                  w: seq<Point3D>) returns (n: Node)
    requires IsGrid(grid) && Consistent(h)
    requires Progressed(grid, start, h, c, D, unseen, closed, level)
    requires IsFreePath(grid, w) && w[0] == start && w[|w| - 1] !in closed
    ensures n in c && n.f <= PathCost(w) + h(w[|w| - 1])
  {
    var i := FirstOpen(grid, start, h, c, D, unseen, closed, level, w);
    assert IsPointValid(w[i]) && Held(c, w[i]);
    n :| n in c && n.point == w[i];
    assert Good(grid, D, start, h, n);
    var rest := w[i..];
    forall k | 0 <= k < |rest| - 1
      ensures Adjacent(rest[k], rest[k + 1])
    {
      assert rest[k] == w[i + k] && rest[k + 1] == w[i + k + 1];
    }
    HeuristicAlong(h, rest);
    PathCostSplit(w, i);
  }

  /** While the goal is not closed and some free walk leads to it, the heap is not empty. */
  lemma RouteHeld(grid: array3<int>, start: Point3D, goal: Point3D, h: Point3D -> real,
                  c: multiset<Node>, D: imap<Point3D, real>, unseen: set<Point3D>,
                  closed: set<Point3D>, level: real)
    requires IsGrid(grid) && Consistent(h)
    requires Progressed(grid, start, h, c, D, unseen, closed, level) && goal !in closed
    ensures (exists w :: Connects(grid, start, goal, w)) ==> c != multiset{}
  {
    if exists w :: Connects(grid, start, goal, w) {
      var w :| Connects(grid, start, goal, w);
      var n := GoalBound(grid, start, h, c, D, unseen, closed, level, w);
    }
  }

  /** A voxel whose map cell records a heap position p holds the node at position p. */
  lemma HeldIndex(a: seq<Node>, size: int, vm: array3<Cell>, q: Point3D)
    requires 0 <= size && Indexed(a, size, vm) && Held(Contents(a, size), q)
    ensures InMap(vm, q) && 1 <= IndexAt(vm, q) <= size && a[IndexAt(vm, q)].point == q
    ensures a[IndexAt(vm, q)] in Contents(a, size)
  {
    var n :| n in Contents(a, size) && n.point == q;
    var j :| 0 <= j < size && a[1..size + 1][j] == n;
    assert a[j + 1] == n;
    assert a[1..size + 1][j] == a[j + 1];
  }

  /** A voxel whose map cell records no position 1..size has no node in the heap. */
  lemma Apart(a: seq<Node>, size: int, vm: array3<Cell>, q: Point3D)
    requires 0 <= size && Indexed(a, size, vm) && InMap(vm, q) && !(1 <= IndexAt(vm, q) <= size)
    ensures forall k :: 1 <= k <= size ==> a[k].point != q
    ensures forall n | n in Contents(a, size) :: n.point != q
  {
    forall k | 1 <= k <= size
      ensures a[k].point != q
    {
      assert IndexAt(vm, a[k].point) == k;
    }
    forall n | n in Contents(a, size)
      ensures n.point != q
    {
      var j :| 0 <= j < size && a[1..size + 1][j] == n;
      assert a[j + 1] == n;
    }
  }

  /** No node of the heap but the one at position i has the voxel of that one. */
  lemma PointOnce(a: seq<Node>, size: int, vm: array3<Cell>, i: int)
    requires Indexed(a, size, vm) && 1 <= i <= size
    ensures forall n | n in Contents(a, size) - multiset{a[i]} :: n.point != a[i].point
  {
    var s := a[1..size + 1];
    assert s == a[1..i] + [a[i]] + a[i + 1..size + 1];
    assert Contents(a, size) - multiset{a[i]} == multiset(a[1..i]) + multiset(a[i + 1..size + 1]);
    forall n | n in Contents(a, size) - multiset{a[i]}
      ensures n.point != a[i].point
    {
      if n in a[1..i] {
        var j :| 0 <= j < i - 1 && a[1..i][j] == n;
        assert a[j + 1] == n && IndexAt(vm, n.point) == j + 1;
      } else {
        assert n in a[i + 1..size + 1];
        var j :| 0 <= j < size - i && a[i + 1..size + 1][j] == n;
        assert a[i + 1 + j] == n && IndexAt(vm, n.point) == i + 1 + j;
      }
    }
  }

  /** A bound below every f at positions 1..size is below every node of the heap. */
  lemma MinOfContents(a: seq<Node>, size: int, f: real)
    requires 0 <= size < |a| && forall k :: 1 <= k <= size ==> f <= a[k].f
    ensures forall n | n in Contents(a, size) :: f <= n.f
  {
    forall n | n in Contents(a, size)
      ensures f <= n.f
    {
      var j :| 0 <= j < size && a[1..size + 1][j] == n;
      assert a[j + 1] == n;
    }
  }

  /** dijkstra: the least cost of a free walk from start to goal, or -1 when there is none. */
  method Dijkstra(start: Point3D, goal: Point3D, grid: array3<int>) returns (r: real)
    requires IsGrid(grid) && IsPointValid(start)
    ensures r == -1.0 || (r >= 0.0 && Reached(grid, start, goal, r))
    ensures r != -1.0 ==> forall w | Connects(grid, start, goal, w) :: r <= PathCost(w)
    ensures (exists w :: Connects(grid, start, goal, w)) ==> r != -1.0
    ensures start == goal ==> r == 0.0
    ensures start != goal && !(IsPointValid(goal) && IsPointTraversable(goal, grid)) ==> r == -1.0
  {
    var h := p => 0.0;
    ZeroConsistent(h);
    r := Search(start, goal, grid, h);
  }

  /** aStarPathfinding: the same search with f = g + voxelDist(·, goal), and the same result. */
  method AStar(start: Point3D, goal: Point3D, grid: array3<int>) returns (r: real)
    requires IsGrid(grid) && IsPointValid(start)
    ensures r == -1.0 || (r >= 0.0 && Reached(grid, start, goal, r))
    ensures r != -1.0 ==> forall w | Connects(grid, start, goal, w) :: r <= PathCost(w)
    ensures (exists w :: Connects(grid, start, goal, w)) ==> r != -1.0
    ensures start == goal ==> r == 0.0
    ensures start != goal && !(IsPointValid(goal) && IsPointTraversable(goal, grid)) ==> r == -1.0
  {
    var h := p => VoxelDist(p, goal);
    VoxelDistConsistent(goal, h);
    r := Search(start, goal, grid, h);
  }

  /** The body shared by dijkstra and aStarPathfinding, with a consistent heuristic h: extract
      the node of least f; return its g if it is the goal; otherwise relax its 26 neighbours.
      The g returned is the least cost of a free walk to the goal, and -1 means there is no
      such walk. */
  method Search(start: Point3D, goal: Point3D, grid: array3<int>, h: Point3D -> real) returns (r: real)
    requires IsGrid(grid) && IsPointValid(start) && Consistent(h)
    ensures r == -1.0 || (r >= 0.0 && Reached(grid, start, goal, r))
    ensures r != -1.0 ==> forall w | Connects(grid, start, goal, w) :: r <= PathCost(w)
    ensures (exists w :: Connects(grid, start, goal, w)) ==> r != -1.0
    ensures start == goal ==> r == 0.0
    ensures start != goal && !(IsPointValid(goal) && IsPointTraversable(goal, grid)) ==> r == -1.0
  {
    var heap, vm, first;
    ghost var unseen;
    heap, vm, first, unseen := Setup(start, grid, h);
    ghost var closed: set<Point3D> := {};
    ghost var level := first.f;
    while heap.size > 0
      invariant Frontier(heap, vm, unseen)
      invariant Progressed(grid, start, h, Contents(heap.node[..], heap.size), DistMap(vm), unseen,
                           closed, level)
      invariant goal !in closed
      decreases heap.size + |unseen|
    {
      var m;
      m, closed, level := TakeMin(heap, vm, grid, start, h, unseen, closed, level);
      if IsPointGoal(m.point, goal) {
        r := m.g;
        Answered(grid, start, goal, m, r);
        return;
      }
      unseen := Expand(heap, vm, grid, start, h, m, unseen, closed, level);
    }
    ghost var c := Contents(heap.node[..], heap.size);
    RouteHeld(grid, start, goal, h, c, DistMap(vm), unseen, closed, level);
    Unanswered(grid, start, goal, c);
    r := -1.0;
  }

  /** The search extracted the goal's node m: its g is the least cost of a free walk to the
      goal. */
  lemma Answered(grid: array3<int>, start: Point3D, goal: Point3D, m: Node, r: real)
    requires IsGrid(grid) && IsPointGoal(m.point, goal) && r == m.g
    requires Reached(grid, start, m.point, m.g)
    requires IsPointValid(start) && forall w | Connects(grid, start, m.point, w) :: m.g <= PathCost(w)
    ensures r == -1.0 || (r >= 0.0 && Reached(grid, start, goal, r))
    ensures r != -1.0 ==> forall w | Connects(grid, start, goal, w) :: r <= PathCost(w)
    ensures (exists w :: Connects(grid, start, goal, w)) ==> r != -1.0
    ensures start == goal ==> r == 0.0
    ensures start != goal && !(IsPointValid(goal) && IsPointTraversable(goal, grid)) ==> r == -1.0
  {
    assert m.point == goal;
    ReachedFacts(grid, start, m.point, m.g);
    if start == goal {
      assert Connects(grid, start, goal, [start]);
    }
  }

  /** The heap emptied before the goal was extracted, so no free walk leads to the goal, and
      the start, from which the one-voxel walk leads, is not the goal. */
  lemma Unanswered(grid: array3<int>, start: Point3D, goal: Point3D, c: multiset<Node>)
    requires IsGrid(grid) && IsPointValid(start) && c == multiset{}
    requires (exists w :: Connects(grid, start, goal, w)) ==> c != multiset{}
    ensures !exists w :: Connects(grid, start, goal, w)
    ensures start != goal
  {
    if start == goal {
      assert Connects(grid, start, goal, [start]);
    }
  }

  /** The set-up of the search: an empty heap and a voxel map whose cells hold FLT_MAX and
      UNSEEN, then distance 0 for the start, whose node is queued. */
  method Setup(start: Point3D, grid: array3<int>, h: Point3D -> real)
    returns (heap: NodeHeap, vm: array3<Cell>, first: Node, ghost unseen: set<Point3D>)
    requires IsGrid(grid) && IsPointValid(start)
    ensures fresh(heap) && fresh(heap.node) && fresh(vm)
    ensures Frontier(heap, vm, unseen)
    ensures Progressed(grid, start, h, Contents(heap.node[..], heap.size), DistMap(vm), unseen, {},
                       first.f)
    ensures first.point == start && first.g == 0.0
    ensures heap.size == 1 && Contents(heap.node[..], heap.size) == multiset{first}
  {
    heap := new NodeHeap();
    vm := Blank();
    ghost var all := set x, y, z | 0 <= x < GRID_SIZE && 0 <= y < GRID_SIZE && 0 <= z < GRID_SIZE ::
      Point3D(x, y, z);
    Untouched(vm, all);
    ghost var D := DistMap(vm);
    assert Contents(heap.node[..], heap.size) == multiset{};
    first := CreateNode(start, 0.0, h(start));
    ReachedStart(grid, start);
    unseen := Queue(heap, vm, first, all);
    assert Contents(heap.node[..], heap.size) == multiset{first};
    Seeded(grid, start, h, first, D, all);
  }

  /** The voxel map of a search not yet started: every cell at FLT_MAX, never queued. */
  method Blank() returns (vm: array3<Cell>)
    ensures fresh(vm) && IsVoxelMap(vm)
    ensures forall x, y, z | 0 <= x < GRID_SIZE && 0 <= y < GRID_SIZE && 0 <= z < GRID_SIZE ::
      vm[x, y, z] == Cell(FLT_MAX, UNSEEN)
  {
    vm := new Cell[GRID_SIZE, GRID_SIZE, GRID_SIZE]((x, y, z) => Cell(FLT_MAX, UNSEEN));
  }

  /** In a blank voxel map every voxel of the grid is unseen and at FLT_MAX. */
  lemma Untouched(vm: array3<Cell>, all: set<Point3D>)
    requires IsVoxelMap(vm)
    requires forall x, y, z | 0 <= x < GRID_SIZE && 0 <= y < GRID_SIZE && 0 <= z < GRID_SIZE ::
      vm[x, y, z] == Cell(FLT_MAX, UNSEEN)
    requires all == set x, y, z | 0 <= x < GRID_SIZE && 0 <= y < GRID_SIZE && 0 <= z < GRID_SIZE ::
      Point3D(x, y, z)
    ensures Marks(vm, all) && Far(DistMap(vm), all, 0.0) && |all| <= GRID_CELLS
    ensures forall p | IsPointValid(p) :: p in all
  {
    GridCard(all);
    forall p | IsPointValid(p)
      ensures p in all
    {
      assert p == Point3D(p.x, p.y, p.z);
    }
  }

  lemma Seeded(grid: array3<int>, start: Point3D, h: Point3D -> real, first: Node,
               D: imap<Point3D, real>, unseen: set<Point3D>)
    requires IsGrid(grid) && IsPointValid(start) && first.point == start
    requires Far(D, unseen, 0.0) && forall p | IsPointValid(p) :: p in unseen
    requires first.g == 0.0 && first.h == h(start) && first.f == first.g + first.h
    requires Reached(grid, start, start, 0.0)
    ensures Progressed(grid, start, h, multiset{first}, D[start := 0.0], unseen - {start}, {},
                       first.f)
  {
    var D', unseen' := D[start := 0.0], unseen - {start};
    assert first in multiset{first};
    assert Good(grid, D', start, h, first) && Ahead(unseen', {}, first.f, first);
    forall p | IsPointValid(p) && p !in unseen'
      ensures Held(multiset{first}, p)
    {
    }
  }

  /** The extraction step of the search: the node m of least f leaves the heap and its voxel is
      closed. Its g is the least cost of a free walk from the start to its voxel. */
  method TakeMin(heap: NodeHeap, vm: array3<Cell>, grid: array3<int>, start: Point3D,
                 h: Point3D -> real, ghost unseen: set<Point3D>, ghost closed: set<Point3D>,
                 ghost level: real)
    returns (m: Node, ghost closed': set<Point3D>, ghost level': real)
    requires IsGrid(grid) && Consistent(h) && Frontier(heap, vm, unseen) && heap.size >= 1
    requires Progressed(grid, start, h, Contents(heap.node[..], heap.size), DistMap(vm), unseen,
                        closed, level)
    modifies heap, heap.node, vm
    ensures Frontier(heap, vm, unseen)
    ensures heap.size == old(heap.size) - 1
    ensures m in old(Contents(heap.node[..], heap.size)) && m.point !in closed
    ensures closed' == closed + {m.point} && level' == m.f
    ensures Expanding(grid, start, h, m, Contents(heap.node[..], heap.size), DistMap(vm), unseen,
                      closed', level')
    ensures forall w | Connects(grid, start, m.point, w) :: m.g <= PathCost(w)
  {
    ghost var a := heap.node[..];
    ghost var c0 := Contents(heap.node[..], heap.size);
    ghost var D := DistMap(vm);
    var min := heap.ExtractMin(vm);
    m := min.value;
    ghost var c := Contents(heap.node[..], heap.size);
    assert DistMap(vm) == D;
    assert Marks(vm, unseen);
    MinOfContents(a, old(heap.size), m.f);
    Apart(heap.node[..], heap.size, vm, m.point);
    ExtractedKeeps(grid, start, h, c, m, D, unseen, closed, level);
    closed', level' := closed + {m.point}, m.f;
    assert Good(grid, D, start, h, m) by {
      assert m in c0;
    }
    forall w | Connects(grid, start, m.point, w)
      ensures m.g <= PathCost(w)
    {
      var n := GoalBound(grid, start, h, c0, D, unseen, closed, level, w);
    }
  }

  /** The three neighbour loops of the search: every voxel next to m is relaxed in turn, after
      which m's voxel is relaxed too. */
  method Expand(heap: NodeHeap, vm: array3<Cell>, grid: array3<int>, start: Point3D,
                h: Point3D -> real, m: Node, ghost unseen: set<Point3D>, ghost closed: set<Point3D>,
                ghost level: real)
    returns (ghost unseen': set<Point3D>)
    requires IsGrid(grid) && Consistent(h) && Frontier(heap, vm, unseen)
    requires Expanding(grid, start, h, m, Contents(heap.node[..], heap.size), DistMap(vm), unseen,
                       closed, level)
    modifies heap, heap.node, vm
    ensures Frontier(heap, vm, unseen')
    ensures Progressed(grid, start, h, Contents(heap.node[..], heap.size), DistMap(vm), unseen',
                       closed, level)
    ensures heap.size + |unseen'| == old(heap.size) + |unseen|
  {
    unseen' := unseen;
    for dx := -1 to 2
      invariant Frontier(heap, vm, unseen')
      invariant Expanding(grid, start, h, m, Contents(heap.node[..], heap.size), DistMap(vm),
                          unseen', closed, level)
      invariant CubeDone(grid, DistMap(vm), unseen', m, dx)
      invariant heap.size + |unseen'| == old(heap.size) + |unseen|
    {
      ghost var D0, u0 := DistMap(vm), unseen';
      unseen' := ExpandPlane(heap, vm, grid, start, h, m, dx, unseen', closed, level);
      CubeStep(grid, D0, DistMap(vm), u0, unseen', m, dx);
    }
    AllRelaxed(grid, DistMap(vm), unseen', m, closed);
  }

  /** The two inner neighbour loops, for one offset dx along x. */
  method ExpandPlane(heap: NodeHeap, vm: array3<Cell>, grid: array3<int>, start: Point3D,
                     h: Point3D -> real, m: Node, dx: int, ghost unseen: set<Point3D>,
                     ghost closed: set<Point3D>, ghost level: real)
    returns (ghost unseen': set<Point3D>)
    requires IsGrid(grid) && Consistent(h) && Frontier(heap, vm, unseen)
    requires Expanding(grid, start, h, m, Contents(heap.node[..], heap.size), DistMap(vm), unseen,
                       closed, level)
    requires -1 <= dx <= 1
    modifies heap, heap.node, vm
    ensures Frontier(heap, vm, unseen')
    ensures Expanding(grid, start, h, m, Contents(heap.node[..], heap.size), DistMap(vm), unseen',
                      closed, level)
    ensures PlaneDone(grid, DistMap(vm), unseen', m, dx, 2)
    ensures Dropped(old(DistMap(vm)), DistMap(vm)) && unseen' <= unseen
    ensures heap.size + |unseen'| == old(heap.size) + |unseen|
  {
    unseen' := unseen;
    ghost var D := DistMap(vm);
    for dy := -1 to 2
      invariant Frontier(heap, vm, unseen')
      invariant Expanding(grid, start, h, m, Contents(heap.node[..], heap.size), DistMap(vm),
                          unseen', closed, level)
      invariant PlaneDone(grid, DistMap(vm), unseen', m, dx, dy)
      invariant Dropped(D, DistMap(vm)) && unseen' <= unseen
      invariant heap.size + |unseen'| == old(heap.size) + |unseen|
    {
      ghost var D0, u0 := DistMap(vm), unseen';
      unseen' := ExpandRow(heap, vm, grid, start, h, m, dx, dy, unseen', closed, level);
      PlaneStep(grid, D0, DistMap(vm), u0, unseen', m, dx, dy);
      DroppedTrans(D, D0, DistMap(vm));
    }
  }

  /** The innermost neighbour loop, for offsets dx and dy: every neighbour but m itself is
      relaxed. */
  method ExpandRow(heap: NodeHeap, vm: array3<Cell>, grid: array3<int>, start: Point3D,
                   h: Point3D -> real, m: Node, dx: int, dy: int, ghost unseen: set<Point3D>,
                   ghost closed: set<Point3D>, ghost level: real)
    returns (ghost unseen': set<Point3D>)
    requires IsGrid(grid) && Consistent(h) && Frontier(heap, vm, unseen)
    requires Expanding(grid, start, h, m, Contents(heap.node[..], heap.size), DistMap(vm), unseen,
                       closed, level)
    requires -1 <= dx <= 1 && -1 <= dy <= 1
    modifies heap, heap.node, vm
    ensures Frontier(heap, vm, unseen')
    ensures Expanding(grid, start, h, m, Contents(heap.node[..], heap.size), DistMap(vm), unseen',
                      closed, level)
    ensures RowDone(grid, DistMap(vm), unseen', m, dx, dy, 2)
    ensures Dropped(old(DistMap(vm)), DistMap(vm)) && unseen' <= unseen
    ensures heap.size + |unseen'| == old(heap.size) + |unseen|
  {
    unseen' := unseen;
    ghost var D := DistMap(vm);
    for dz := -1 to 2
      invariant Frontier(heap, vm, unseen')
      invariant Expanding(grid, start, h, m, Contents(heap.node[..], heap.size), DistMap(vm),
                          unseen', closed, level)
      invariant RowDone(grid, DistMap(vm), unseen', m, dx, dy, dz)
      invariant Dropped(D, DistMap(vm)) && unseen' <= unseen
      invariant heap.size + |unseen'| == old(heap.size) + |unseen|
    {
      ghost var D0 := DistMap(vm);
      unseen' := RelaxAt(heap, vm, grid, start, h, m, dx, dy, dz, unseen', closed, level);
      DroppedTrans(D, D0, DistMap(vm));
    }
  }

  /** One step of the innermost loop: the neighbour at offsets dx, dy, dz, unless it is m's own
      voxel, is relaxed, and with it the row is done up to dz. */
  method RelaxAt(heap: NodeHeap, vm: array3<Cell>, grid: array3<int>, start: Point3D,
                 h: Point3D -> real, m: Node, dx: int, dy: int, dz: int,
                 ghost unseen: set<Point3D>, ghost closed: set<Point3D>, ghost level: real)
    returns (ghost unseen': set<Point3D>)
    requires IsGrid(grid) && Consistent(h) && Frontier(heap, vm, unseen)
    requires Expanding(grid, start, h, m, Contents(heap.node[..], heap.size), DistMap(vm), unseen,
                       closed, level)
    requires -1 <= dx <= 1 && -1 <= dy <= 1 && -1 <= dz <= 1
    requires RowDone(grid, DistMap(vm), unseen, m, dx, dy, dz)
    modifies heap, heap.node, vm
    ensures Frontier(heap, vm, unseen')
    ensures Expanding(grid, start, h, m, Contents(heap.node[..], heap.size), DistMap(vm), unseen',
                      closed, level)
    ensures RowDone(grid, DistMap(vm), unseen', m, dx, dy, dz + 1)
    ensures Dropped(old(DistMap(vm)), DistMap(vm)) && unseen' <= unseen
    ensures heap.size + |unseen'| == old(heap.size) + |unseen|
  {
    unseen' := unseen;
    ghost var D0 := DistMap(vm);
    if !(dx == 0 && dy == 0 && dz == 0) {
      var neighbor := Offset(m.point, dx, dy, dz);
      unseen' := Relax(heap, vm, grid, start, h, m, neighbor, unseen, closed, level);
      RowStep(grid, D0, DistMap(vm), unseen, unseen', m, dx, dy, dz);
    } else {
      SelfDone(grid, DistMap(vm), unseen', m);
      RowGrows(grid, DistMap(vm), unseen', m, dx, dy, dz);
    }
  }

  /** The body of the neighbour loops: a neighbour in the grid, not yet extracted and not
      occupied, whose distance through m improves on the recorded one, gets that distance and
      is queued (first time) or moved up the heap (later times). Afterwards the neighbour, when
      free, is recorded at a distance no larger than through m. */
  method Relax(heap: NodeHeap, vm: array3<Cell>, grid: array3<int>, start: Point3D,
               h: Point3D -> real, m: Node, neighbor: Point3D, ghost unseen: set<Point3D>,
               ghost closed: set<Point3D>, ghost level: real)
    returns (ghost unseen': set<Point3D>)
    requires IsGrid(grid) && Consistent(h) && Frontier(heap, vm, unseen)
    requires Expanding(grid, start, h, m, Contents(heap.node[..], heap.size), DistMap(vm), unseen,
                       closed, level)
    requires Adjacent(m.point, neighbor)
    modifies heap, heap.node, vm
    ensures Frontier(heap, vm, unseen')
    ensures Expanding(grid, start, h, m, Contents(heap.node[..], heap.size), DistMap(vm), unseen',
                      closed, level)
    ensures Done(grid, DistMap(vm), unseen', m, neighbor)
    ensures Dropped(old(DistMap(vm)), DistMap(vm)) && unseen' <= unseen
    ensures heap.size + |unseen'| == old(heap.size) + |unseen|
  {
    unseen' := unseen;
    if !IsPointValid(neighbor) || vm[neighbor.x, neighbor.y, neighbor.z].indexHeap == -1 ||
       !IsPointTraversable(neighbor, grid) {
      Passed(heap, vm, grid, start, h, m, neighbor, unseen, closed, level);
      return;
    }
    unseen' := Visit(heap, vm, grid, start, h, m, neighbor, unseen, closed, level);
  }

  /** A neighbour the search passes over, outside the grid, occupied or extracted, is done
      already. */
  lemma Passed(heap: NodeHeap, vm: array3<Cell>, grid: array3<int>, start: Point3D,
               h: Point3D -> real, m: Node, q: Point3D, unseen: set<Point3D>,
               closed: set<Point3D>, level: real)
    requires IsGrid(grid) && Consistent(h) && Frontier(heap, vm, unseen)
    requires Expanding(grid, start, h, m, Contents(heap.node[..], heap.size), DistMap(vm), unseen,
                       closed, level)
    requires Adjacent(m.point, q)
    requires !IsPointValid(q) || IndexAt(vm, q) == -1 || !IsPointTraversable(q, grid)
    ensures Done(grid, DistMap(vm), unseen, m, q)
  {
    if IsPointValid(q) && IsPointTraversable(q, grid) {
      ghost var c, D := Contents(heap.node[..], heap.size), DistMap(vm);
      Unmarked(vm, unseen, q);
      Apart(heap.node[..], heap.size, vm, q);
      assert !Held(c, q);
      ClosedBelow(D, h, unseen, closed, level, m, q);
    }
  }

  /** The body of the neighbour loops for a free neighbour not yet extracted: when its
      distance through m improves on the recorded one, it gets that distance and is queued
      (first time) or moved up the heap (later times). */
  method Visit(heap: NodeHeap, vm: array3<Cell>, grid: array3<int>, start: Point3D,
               h: Point3D -> real, m: Node, neighbor: Point3D, ghost unseen: set<Point3D>,
               ghost closed: set<Point3D>, ghost level: real)
    returns (ghost unseen': set<Point3D>)
    requires IsGrid(grid) && Consistent(h) && Frontier(heap, vm, unseen)
    requires Expanding(grid, start, h, m, Contents(heap.node[..], heap.size), DistMap(vm), unseen,
                       closed, level)
    requires Adjacent(m.point, neighbor) && IsPointValid(neighbor)
    requires IndexAt(vm, neighbor) != -1 && IsPointTraversable(neighbor, grid)
    modifies heap, heap.node, vm
    ensures Frontier(heap, vm, unseen')
    ensures Expanding(grid, start, h, m, Contents(heap.node[..], heap.size), DistMap(vm), unseen',
                      closed, level)
    ensures Done(grid, DistMap(vm), unseen', m, neighbor)
    ensures Dropped(old(DistMap(vm)), DistMap(vm)) && unseen' <= unseen
    ensures heap.size + |unseen'| == old(heap.size) + |unseen|
  {
    unseen' := unseen;
    ghost var D := DistMap(vm);
    var tentativeGScore := m.g + Cost(m.point, neighbor);
    TentativeBelow(D, h, unseen, closed, level, m, neighbor);
    Unmarked(vm, unseen, neighbor);
    if neighbor in closed {
      ClosedBelow(D, h, unseen, closed, level, m, neighbor);
    }
    if tentativeGScore < vm[neighbor.x, neighbor.y, neighbor.z].dist {
      if vm[neighbor.x, neighbor.y, neighbor.z].indexHeap == UNSEEN {
        unseen' := QueueNeighbor(heap, vm, grid, start, h, m, neighbor, tentativeGScore, unseen,
                                 closed, level);
      } else {
        ImproveNeighbor(heap, vm, grid, start, h, m, neighbor, tentativeGScore, unseen, closed,
                        level);
      }
    }
  }

  /** The first improvement of q, a free neighbour of m never queued: it is queued at the
      distance g through m. */
  method QueueNeighbor(heap: NodeHeap, vm: array3<Cell>, grid: array3<int>, start: Point3D,
                       h: Point3D -> real, m: Node, q: Point3D, g: real,
                       ghost unseen: set<Point3D>, ghost closed: set<Point3D>, ghost level: real)
    returns (ghost unseen': set<Point3D>)
    requires IsGrid(grid) && Consistent(h) && Frontier(heap, vm, unseen)
    requires Expanding(grid, start, h, m, Contents(heap.node[..], heap.size), DistMap(vm), unseen,
                       closed, level)
    requires q in unseen && Adjacent(m.point, q) && IsPointValid(q) && IsPointTraversable(q, grid)
    requires g == m.g + Cost(m.point, q)
    modifies heap, heap.node, vm
    ensures Frontier(heap, vm, unseen')
    ensures Expanding(grid, start, h, m, Contents(heap.node[..], heap.size), DistMap(vm), unseen',
                      closed, level)
    ensures Done(grid, DistMap(vm), unseen', m, q)
    ensures Dropped(old(DistMap(vm)), DistMap(vm)) && unseen' <= unseen
    ensures heap.size + |unseen'| == old(heap.size) + |unseen|
  {
    var p := CreateNode(q, g, h(q));
    QueuedKeeps(grid, start, h, m, Contents(heap.node[..], heap.size), DistMap(vm), unseen, closed,
                level, p);
    unseen' := Queue(heap, vm, p, unseen);
  }

  /** A later improvement of q, a free neighbour of m queued and not closed: its node is
      lowered to the distance g through m. */
  method ImproveNeighbor(heap: NodeHeap, vm: array3<Cell>, grid: array3<int>, start: Point3D,
                         h: Point3D -> real, m: Node, q: Point3D, g: real,
                         ghost unseen: set<Point3D>, ghost closed: set<Point3D>, ghost level: real)
    requires IsGrid(grid) && Consistent(h) && Frontier(heap, vm, unseen)
    requires Expanding(grid, start, h, m, Contents(heap.node[..], heap.size), DistMap(vm), unseen,
                       closed, level)
    requires IsPointValid(q) && q !in unseen && q !in closed && Adjacent(m.point, q)
    requires IsPointTraversable(q, grid) && g == m.g + Cost(m.point, q) && g < DistMap(vm)[q]
    modifies heap.node, vm
    ensures Frontier(heap, vm, unseen)
    ensures Expanding(grid, start, h, m, Contents(heap.node[..], heap.size), DistMap(vm), unseen,
                      closed, level)
    ensures Done(grid, DistMap(vm), unseen, m, q)
    ensures Dropped(old(DistMap(vm)), DistMap(vm))
  {
    ghost var c, D := Contents(heap.node[..], heap.size), DistMap(vm);
    assert Held(c, q);
    HeldIndex(heap.node[..], heap.size, vm, q);
    ghost var o := heap.node[IndexAt(vm, q)];
    assert Good(grid, D, start, h, o);
    PointOnce(heap.node[..], heap.size, vm, IndexAt(vm, q));
    RekeyedKeeps(grid, start, h, m, c, D, unseen, closed, level, o, o.(g := g, f := g + o.h));
    Improve(heap, vm, q, g, unseen, o);
  }

  /** A voxel of the grid is unseen exactly when its map cell holds UNSEEN. */
  lemma Unmarked(vm: array3<Cell>, unseen: set<Point3D>, q: Point3D)
    requires IsVoxelMap(vm) && Marks(vm, unseen) && IsPointValid(q)
    ensures InMap(vm, q) && (q in unseen <==> IndexAt(vm, q) == UNSEEN) && IndexAt(vm, q) != 0 - 2
  {
    assert q == Point3D(q.x, q.y, q.z);
  }

  /** The voxel of p, never queued, gets the distance p.g and p goes into the heap: the seeding
      of the start and the first improvement of a neighbour. */
  method Queue(heap: NodeHeap, vm: array3<Cell>, p: Node, ghost unseen: set<Point3D>)
    returns (ghost unseen': set<Point3D>)
    requires Frontier(heap, vm, unseen) && p.point in unseen
    modifies heap, heap.node, vm
    ensures unseen' == unseen - {p.point} && Frontier(heap, vm, unseen')
    ensures heap.size == old(heap.size) + 1
    ensures Contents(heap.node[..], heap.size) == old(Contents(heap.node[..], heap.size)) + multiset{p}
    ensures DistMap(vm) == old(DistMap(vm))[p.point := p.g]
  {
    SetDist(heap, vm, p.point, p.g, unseen);
    unseen' := Enlist(heap, vm, p, unseen);
  }

  /** A later improvement of a voxel q whose node o is in the heap: the map records the new
      distance g and NH_decrease_priority moves o, now of distance g, up to its new key. */
  method Improve(heap: NodeHeap, vm: array3<Cell>, q: Point3D, g: real, ghost unseen: set<Point3D>,
                 ghost o: Node)
    requires Frontier(heap, vm, unseen) && InMap(vm, q) && 1 <= IndexAt(vm, q) <= heap.size
    requires heap.node[IndexAt(vm, q)] == o && o.point == q && g + o.h <= o.f
    modifies heap.node, vm
    ensures Frontier(heap, vm, unseen)
    ensures Contents(heap.node[..], heap.size) ==
      old(Contents(heap.node[..], heap.size)) - multiset{o} + multiset{o.(g := g, f := g + o.h)}
    ensures DistMap(vm) == old(DistMap(vm))[q := g]
  {
    SetDist(heap, vm, q, g, unseen);
    Rekey(heap, vm, q, g, unseen, o);
  }

  /** The map records the distance g for the voxel q (dist[q] = g); nothing else changes. */
  method SetDist(heap: NodeHeap, vm: array3<Cell>, q: Point3D, g: real, ghost unseen: set<Point3D>)
    requires Frontier(heap, vm, unseen) && IsPointValid(q)
    modifies vm
    ensures Frontier(heap, vm, unseen)
    ensures DistMap(vm) == old(DistMap(vm))[q := g]
  {
    ghost var D := DistMap(vm);
    vm[q.x, q.y, q.z] := vm[q.x, q.y, q.z].(dist := g);
    assert DistMap(vm) == D[q := g];
    forall k | 1 <= k <= heap.size
      ensures InMap(vm, heap.node[k].point) && IndexAt(vm, heap.node[k].point) == k
    {
      assert IndexAt(vm, heap.node[k].point) == old(IndexAt(vm, heap.node[k].point));
    }
  }

  /** NH_insert of p, whose voxel was never queued: the voxel leaves unseen. */
  method Enlist(heap: NodeHeap, vm: array3<Cell>, p: Node, ghost unseen: set<Point3D>)
    returns (ghost unseen': set<Point3D>)
    requires Frontier(heap, vm, unseen) && p.point in unseen
    modifies heap, heap.node, vm
    ensures unseen' == unseen - {p.point} && Frontier(heap, vm, unseen')
    ensures heap.size == old(heap.size) + 1
    ensures Contents(heap.node[..], heap.size) == old(Contents(heap.node[..], heap.size)) + multiset{p}
    ensures DistMap(vm) == old(DistMap(vm))
  {
    unseen' := unseen - {p.point};
    Unmarked(vm, unseen, p.point);
    Apart(heap.node[..], heap.size, vm, p.point);
    heap.Insert(p, vm);
    forall x, y, z | 0 <= x < GRID_SIZE && 0 <= y < GRID_SIZE && 0 <= z < GRID_SIZE
      ensures (Point3D(x, y, z) in unseen' <==> vm[x, y, z].indexHeap == UNSEEN) &&
              (vm[x, y, z].indexHeap == UNSEEN || vm[x, y, z].indexHeap >= -1)
    {
      if Point3D(x, y, z) == p.point {
        assert vm[x, y, z].indexHeap == IndexAt(vm, p.point);
      } else {
        assert Point3D(x, y, z) in unseen' <==> old(vm[x, y, z].indexHeap) == UNSEEN;
      }
    }
    assert DistMap(vm) == old(DistMap(vm));
  }

  /** NH_decrease_priority of the node o of q to the distance g; the map's distances stay. */
  method Rekey(heap: NodeHeap, vm: array3<Cell>, q: Point3D, g: real, ghost unseen: set<Point3D>,
               ghost o: Node)
    requires Frontier(heap, vm, unseen) && InMap(vm, q) && 1 <= IndexAt(vm, q) <= heap.size
    requires heap.node[IndexAt(vm, q)] == o && o.point == q && g + o.h <= o.f
    modifies heap.node, vm
    ensures Frontier(heap, vm, unseen)
    ensures Contents(heap.node[..], heap.size) ==
      old(Contents(heap.node[..], heap.size)) - multiset{o} + multiset{o.(g := g, f := g + o.h)}
    ensures DistMap(vm) == old(DistMap(vm))
  {
    ghost var a, i := heap.node[..], IndexAt(vm, q);
    ghost var v := Rekeyed(a, i, g)[i];
    assert v == o.(g := g, f := g + o.h);
    heap.DecreaseKey(q, g, vm);
    assert Contents(heap.node[..], heap.size) == old(Contents(heap.node[..], heap.size)) - multiset{o} + multiset{v};
    forall x, y, z | 0 <= x < GRID_SIZE && 0 <= y < GRID_SIZE && 0 <= z < GRID_SIZE
      ensures vm[x, y, z].indexHeap == UNSEEN <==> old(vm[x, y, z].indexHeap) == UNSEEN
      ensures vm[x, y, z].indexHeap == UNSEEN || vm[x, y, z].indexHeap >= -1
    {
    }
    assert DistMap(vm) == old(DistMap(vm));
  }
}
