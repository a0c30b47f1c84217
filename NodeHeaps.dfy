/**
 * The indexed binary min-heap of src/structureNH.c. Positions 1..size of the node array hold the
 * heap, ordered by f; the voxel map (VMap) records, in each cell, the position of that voxel's node
 * in the heap (indexHeap), -1 once the node has been extracted.
 */
module NodeHeaps {
  import opened Constants
  import opened Options
  import opened Points

  /** A search node (Node): a voxel, its distance g from the start, its heuristic h, and f. */
  datatype Node = Node(point: Point3D, g: real, h: real, f: real)

  /** A cell of the voxel map (VMap): best distance found so far and heap position. */
  datatype Cell = Cell(dist: real, indexHeap: int)

  /** createNode (src/structure.c): the priority of a new node is the sum of its g and h. */
  function CreateNode(point: Point3D, g: real, h: real): (n: Node)
    ensures n.f == n.g + n.h && n.g == g && n.h == h && n.point == point
  {
    Node(point, g, h, g + h)
  }

  /** Whether p indexes a cell of the voxel map. */
  predicate InMap(vm: array3<Cell>, p: Point3D)
  {
    0 <= p.x < vm.Length0 && 0 <= p.y < vm.Length1 && 0 <= p.z < vm.Length2
  }

  /** The heap position the voxel map records for p. */
  function IndexAt(vm: array3<Cell>, p: Point3D): int
    reads vm
    requires InMap(vm, p)
  {
    vm[p.x, p.y, p.z].indexHeap
  }

  /** Heap order on positions 1..size: no node has a smaller f than its parent. */
  ghost predicate HeapOrder(a: seq<Node>, size: int)
  {
    forall k :: 2 <= k <= size && k < |a| ==> a[k / 2].f <= a[k].f
  }

  /** The position map is right: the node at each position 1..size is recorded there. */
  ghost predicate Indexed(a: seq<Node>, size: int, vm: array3<Cell>)
    reads vm
  {
    size < |a| &&
    forall k :: 1 <= k <= size ==> InMap(vm, a[k].point) && IndexAt(vm, a[k].point) == k
  }

  /** The nodes held by the heap. */
  ghost function Contents(a: seq<Node>, size: int): multiset<Node>
    requires 0 <= size < |a|
  {
    multiset(a[1..size + 1])
  }

  /** The sequence with the entries at i and j exchanged. */
  function Swapped(a: seq<Node>, i: int, j: int): seq<Node>
    requires 0 <= i < |a| && 0 <= j < |a|
  {
    a[i := a[j]][j := a[i]]
  }

  /** Between two states, no distance changed. */
  twostate predicate DistsKept(vm: array3<Cell>)
    reads vm
  {
    forall x, y, z :: 0 <= x < vm.Length0 && 0 <= y < vm.Length1 && 0 <= z < vm.Length2 ==>
      vm[x, y, z].dist == old(vm[x, y, z]).dist
  }

  /** Between two states, no distance changed and the only heap positions written are real ones
      (at least -1), over markers that were real ones too, except in the cells of the points in
      skip. In particular a cell still carrying the "never queued" marker is untouched. */
  twostate predicate MarksOnly(vm: array3<Cell>, skip: set<Point3D>)
    reads vm
  {
    DistsKept(vm) &&
    forall x, y, z :: 0 <= x < vm.Length0 && 0 <= y < vm.Length1 && 0 <= z < vm.Length2 ==>
      Point3D(x, y, z) in skip ||
      vm[x, y, z].indexHeap == old(vm[x, y, z]).indexHeap ||
      (vm[x, y, z].indexHeap >= -1 && old(vm[x, y, z]).indexHeap >= -1)
  }

  /** Records position i in the cell of voxel q, over a real position; no other cell changes. */
  method Mark(vm: array3<Cell>, q: Point3D, i: int)
    requires InMap(vm, q) && i >= -1 && IndexAt(vm, q) >= -1
    modifies vm
    ensures IndexAt(vm, q) == i
    ensures forall p :: InMap(vm, p) && p != q ==> IndexAt(vm, p) == old(IndexAt(vm, p))
    ensures MarksOnly(vm, {})
  {
    vm[q.x, q.y, q.z] := vm[q.x, q.y, q.z].(indexHeap := i);
  }

  /** Between two states, a voxel whose cell did not record a position in 1..size keeps its
      recorded position. */
  twostate predicate OutsideKept(vm: array3<Cell>, size: int)
    reads vm
  {
    forall p :: InMap(vm, p) && !(1 <= old(IndexAt(vm, p)) <= size) ==>
      IndexAt(vm, p) == old(IndexAt(vm, p))
  }

  /** Heap order except between position i and its children, whose parent's parent bounds them. */
  ghost predicate OrderedBelow(a: seq<Node>, size: int, i: int)
  {
    (forall k :: 2 <= k <= size && k < |a| && k / 2 != i ==> a[k / 2].f <= a[k].f) &&
    (forall k :: 2 <= k <= size && k < |a| && k / 2 == i && i >= 2 ==> a[i / 2].f <= a[k].f)
  }

  /** Heap order except between position i and its parent, whose value bounds i's children. */
  ghost predicate OrderedAbove(a: seq<Node>, size: int, i: int)
  {
    (forall k :: 2 <= k <= size && k < |a| && k != i ==> a[k / 2].f <= a[k].f) &&
    (forall k :: 2 <= k <= size && k < |a| && k / 2 == i && i >= 2 ==> a[i / 2].f <= a[k].f)
  }

  /** The root of a heap holds a minimal f. */
  lemma {:induction false} RootIsMin(a: seq<Node>, size: int, k: int)
    requires HeapOrder(a, size) && 1 <= k <= size < |a|
    ensures a[1].f <= a[k].f
    decreases k
  {
    if k > 1 {
      RootIsMin(a, size, k / 2);
    }
  }

  /** Exchanging two held positions keeps the nodes held. */
  lemma SwapContents(a: seq<Node>, size: int, i: int, j: int)
    requires 1 <= i <= size && 1 <= j <= size && size < |a|
    ensures Contents(Swapped(a, i, j), size) == Contents(a, size)
  {
    var s := a[1..size + 1];
    assert Swapped(a, i, j)[1..size + 1] == s[i - 1 := s[j - 1]][j - 1 := s[i - 1]];
  }

  /** Overwriting a held position replaces one node of the heap by another. */
  lemma UpdateContents(a: seq<Node>, size: int, i: int, v: Node)
    requires 1 <= i <= size < |a|
    ensures Contents(a[i := v], size) == Contents(a, size) - multiset{a[i]} + multiset{v}
  {
    var s := a[1..size + 1];
    assert a[i := v][1..size + 1] == s[i - 1 := v];
  }

  /** Filling the slot after the heap adds its node to the heap. */
  lemma AppendContents(a: seq<Node>, size: int, p: Node)
    requires 0 <= size && size + 1 < |a|
    ensures Contents(a[size + 1 := p], size + 1) == Contents(a, size) + multiset{p}
  {
    assert a[size + 1 := p][1..size + 2] == a[1..size + 1] + [p];
  }

  /** Moving the last node to the root and shrinking takes exactly the root out of the heap. */
  lemma ExtractContents(a: seq<Node>, size: int)
    requires 1 <= size < |a|
    ensures Contents(a[1 := a[size]], size - 1) + multiset{a[1]} == Contents(a, size)
  {
    if size >= 2 {
      assert a[1 := a[size]][1..size] == [a[size]] + a[2..size];
      assert a[1..size + 1] == [a[1]] + a[2..size] + [a[size]];
    } else {
      assert a[1..size + 1] == [a[1]];
    }
  }

  /** Moving the last node to the root leaves the shrunk heap out of order only below the root. */
  lemma ExtractOrder(a: seq<Node>, size: int)
    requires HeapOrder(a, size) && 1 <= size < |a|
    ensures OrderedBelow(a[1 := a[size]], size - 1, 1)
  {
    var b := a[1 := a[size]];
    forall k | 2 <= k <= size - 1 && k / 2 != 1
      ensures b[k / 2].f <= b[k].f
    {
      assert b[k] == a[k] && b[k / 2] == a[k / 2];
    }
  }

  /** Once no child of i has a smaller f than i, the heap is in order. */
  lemma BelowDone(a: seq<Node>, size: int, i: int)
    requires OrderedBelow(a, size, i) && 1 <= i && size < |a|
    requires 2 * i <= size ==> a[i].f <= a[2 * i].f
    requires 2 * i + 1 <= size ==> a[i].f <= a[2 * i + 1].f
    ensures HeapOrder(a, size)
  {
    forall k | 2 <= k <= size && k / 2 == i
      ensures a[k / 2].f <= a[k].f
    {
      assert k == 2 * i || k == 2 * i + 1;
    }
  }

  /** One level of sift-down: exchanging i with its smaller child m, when that child is smaller
      than i, leaves the heap out of order only below m. */
  lemma SiftDownStep(a: seq<Node>, size: int, i: int, m: int)
    requires 1 <= i && 2 <= m <= size < |a| && m / 2 == i
    requires OrderedBelow(a, size, i)
    requires a[m].f < a[i].f
    requires forall c :: 2 <= c <= size && c / 2 == i ==> a[m].f <= a[c].f
    ensures OrderedBelow(Swapped(a, i, m), size, m)
  {
    var b := Swapped(a, i, m);
    forall k | 2 <= k <= size && k / 2 != m
      ensures b[k / 2].f <= b[k].f
    {
      if k == m {
      } else if k == i {
        assert a[i / 2].f <= a[m].f;
      } else if k / 2 == i {
        assert b[k] == a[k];
      } else {
        assert b[k] == a[k] && b[k / 2] == a[k / 2];
      }
    }
  }

  /** One level of sift-up: exchanging i with its larger parent leaves the heap out of order only
      above i / 2. */
  lemma SiftUpStep(a: seq<Node>, size: int, i: int)
    requires 2 <= i <= size < |a|
    requires OrderedAbove(a, size, i)
    requires a[i / 2].f > a[i].f
    ensures OrderedAbove(Swapped(a, i, i / 2), size, i / 2)
  {
    var b := Swapped(a, i, i / 2);
    var p := i / 2;
    forall k | 2 <= k <= size && k != p
      ensures b[k / 2].f <= b[k].f
    {
      if k == i {
      } else if k / 2 == i {
        assert b[k] == a[k];
      } else if k / 2 == p {
        assert b[k] == a[k];
        assert a[p].f <= a[k].f;
      } else {
        assert b[k] == a[k] && b[k / 2] == a[k / 2];
      }
    }
    forall k | 2 <= k <= size && k / 2 == p && p >= 2
      ensures b[p / 2].f <= b[k].f
    {
      assert b[p / 2] == a[p / 2];
      assert a[p / 2].f <= a[p].f;
      if k != i {
        assert b[k] == a[k];
        assert a[p].f <= a[k].f;
      }
    }
  }

  /** The heap as NH_increase_priority leaves it at position i: new g and f, then at most one
      exchange with the parent. */
  function Rekeyed(a: seq<Node>, i: int, distG: real): seq<Node>
    requires 0 <= i < |a|
  {
    a[i := a[i].(g := distG, f := distG + a[i].h)]
  }

  /** NH_increase_priority as written: its loop never moves i, so after one exchange its
      condition is false and the node has climbed at most one level. */
  function RaisedOnce(a: seq<Node>, i: int, distG: real): seq<Node>
    requires 1 <= i < |a|
  {
    var b := Rekeyed(a, i, distG);
    if i > 1 && b[i / 2].f > b[i].f then Swapped(b, i, i / 2) else b
  }

  /** A heap with f values 1, 5, 6, 7 at positions 1..4: lowering the node at position 4 to f 0
      takes it only to position 2, under a root of f 1, so the result is no longer a heap. */
  lemma RaisedOnceBreaksOrder()
    ensures var a := [Node(Point3D(0, 0, 0), 0.0, 0.0, 0.0), Node(Point3D(1, 0, 0), 1.0, 0.0, 1.0),
                      Node(Point3D(2, 0, 0), 5.0, 0.0, 5.0), Node(Point3D(3, 0, 0), 6.0, 0.0, 6.0),
                      Node(Point3D(4, 0, 0), 7.0, 0.0, 7.0)];
      HeapOrder(a, 4) && !HeapOrder(RaisedOnce(a, 4, 0.0), 4)
  {
    var a := [Node(Point3D(0, 0, 0), 0.0, 0.0, 0.0), Node(Point3D(1, 0, 0), 1.0, 0.0, 1.0),
              Node(Point3D(2, 0, 0), 5.0, 0.0, 5.0), Node(Point3D(3, 0, 0), 6.0, 0.0, 6.0),
              Node(Point3D(4, 0, 0), 7.0, 0.0, 7.0)];
    var r := RaisedOnce(a, 4, 0.0);
    assert r[2].f == 0.0 && r[1].f == 1.0;
    assert !(r[2 / 2].f <= r[2].f);
  }

  /** A NodeHeap: the node array (positions 1..size in use) and its size. */
  class NodeHeap {
    var size: int
    const node: array<Node>

    /** NH_initAlloc: an empty heap with room for one node per voxel of the grid. */
    constructor ()
      ensures size == 0 && node.Length == GRID_SIZE * GRID_SIZE * GRID_SIZE + 1
      ensures HeapOrder(node[..], size)
      ensures fresh(node)
    {
      size := 0;
      node := new Node[GRID_SIZE * GRID_SIZE * GRID_SIZE + 1];
    }

    /** swap: exchanges two positions and records both new positions in the voxel map. */
    method Swap(i: int, j: int, vm: array3<Cell>)
      requires 1 <= i <= size && 1 <= j <= size
      requires Indexed(node[..], size, vm)
      modifies node, vm
      ensures node[..] == Swapped(old(node[..]), i, j)
      ensures Indexed(node[..], size, vm)
      ensures MarksOnly(vm, {}) && OutsideKept(vm, size)
    {
      ghost var a := node[..];
      var tmp := node[i];
      node[i] := node[j];
      node[j] := tmp;
      assert node[..] == Swapped(a, i, j);
      Mark(vm, node[i].point, i);
      Mark(vm, node[j].point, j);
      forall k | 1 <= k <= size
        ensures InMap(vm, node[k].point) && IndexAt(vm, node[k].point) == k
      {
        if k != i && k != j {
          assert node[k] == a[k];
          assert old(IndexAt(vm, a[k].point)) == k;
        }
      }
    }

    /** stack (sift-down): restores heap order at position i when only the links from i to its
        children may be out of order. */
    method Stack(i: int, vm: array3<Cell>)
      requires 1 <= i && 0 <= size
      requires Indexed(node[..], size, vm)
      requires OrderedBelow(node[..], size, i)
      modifies node, vm
      ensures HeapOrder(node[..], size) && Indexed(node[..], size, vm)
      ensures Contents(node[..], size) == old(Contents(node[..], size))
      ensures MarksOnly(vm, {}) && OutsideKept(vm, size)
      decreases size - i
    {
      var l := 2 * i;
      var r := 2 * i + 1;
      var min;
      if l <= size && node[l].f < node[i].f {
        min := l;
      } else {
        min := i;
      }
      if r <= size && node[r].f < node[min].f {
        min := r;
      }
      if min != i {
        SinkStep(i, min, vm);
        Stack(min, vm);
      } else {
        BelowDone(node[..], size, i);
      }
    }

    /** One exchange of stack: the node at i moves down to its smaller child m. */
    method SinkStep(i: int, m: int, vm: array3<Cell>)
      requires 1 <= i && 2 <= m <= size && m / 2 == i
      requires Indexed(node[..], size, vm) && OrderedBelow(node[..], size, i)
      requires node[m].f < node[i].f
      requires forall c :: 2 <= c <= size && c / 2 == i ==> node[m].f <= node[c].f
      modifies node, vm
      ensures OrderedBelow(node[..], size, m) && Indexed(node[..], size, vm)
      ensures Contents(node[..], size) == old(Contents(node[..], size))
      ensures MarksOnly(vm, {}) && OutsideKept(vm, size)
    {
      SiftDownStep(node[..], size, i, m);
      SwapContents(node[..], size, i, m);
      Swap(i, m, vm);
    }

    /** NH_insert: one more node, sifted up by moving larger parents down into the gap. */
    method Insert(p: Node, vm: array3<Cell>)
      requires 0 <= size && size + 1 < node.Length
      requires HeapOrder(node[..], size) && Indexed(node[..], size, vm)
      requires InMap(vm, p.point)
      requires forall k :: 1 <= k <= size ==> node[k].point != p.point
      modifies this, node, vm
      ensures size == old(size) + 1
      ensures HeapOrder(node[..], size) && Indexed(node[..], size, vm)
      ensures Contents(node[..], size) == old(Contents(node[..], size)) + multiset{p}
      ensures MarksOnly(vm, {p.point}) && 1 <= IndexAt(vm, p.point) <= size
    {
      AppendContents(node[..], size, p);
      GapStart(node[..], size, p);
      IndexedStart(node[..], size, vm, p.point);
      size := size + 1;
      var i := Climb(p, vm);
      FillGap(i, p, vm);
    }

    /** The loop of NH_insert: the gap climbs from the new last position while its parent has a
        larger f than p. */
    method Climb(p: Node, vm: array3<Cell>) returns (i: int)
      requires 1 <= size < node.Length
      requires GapOrdered(node[..], size, size, p) && IndexedBut(node[..], size, size, vm, p.point)
      modifies node, vm
      ensures 1 <= i <= size && (i == 1 || node[i / 2].f <= p.f)
      ensures GapOrdered(node[..], size, i, p) && IndexedBut(node[..], size, i, vm, p.point)
      ensures Contents(node[..][i := p], size) == Contents(old(node[..])[size := p], size)
      ensures MarksOnly(vm, {})
    {
      ghost var c := Contents(node[..][size := p], size);
      i := size;
      while i > 1 && node[i / 2].f > p.f
        invariant 1 <= i <= size
        invariant GapOrdered(node[..], size, i, p)
        invariant IndexedBut(node[..], size, i, vm, p.point)
        invariant Contents(node[..][i := p], size) == c
        invariant MarksOnly(vm, {})
      {
        MoveDown(i, p, vm);
        i := i / 2;
      }
    }

    /** The loop step of NH_insert: the parent of the gap moves down into it, and the voxel map
        records its new position. */
    method MoveDown(i: int, p: Node, vm: array3<Cell>)
      requires 2 <= i <= size < node.Length
      requires node[i / 2].f > p.f
      requires GapOrdered(node[..], size, i, p) && IndexedBut(node[..], size, i, vm, p.point)
      modifies node, vm
      ensures node[..] == old(node[..])[i := old(node[i / 2])]
      ensures Contents(node[..][i / 2 := p], size) == Contents(old(node[..])[i := p], size)
      ensures GapOrdered(node[..], size, i / 2, p) && IndexedBut(node[..], size, i / 2, vm, p.point)
      ensures MarksOnly(vm, {})
    {
      GapStep(node[..], size, i, p);
      GapContents(node[..], size, i, p);
      ghost var a := node[..];
      node[i] := node[i / 2];
      Mark(vm, node[i].point, i);
      forall k | 1 <= k <= size && k != i / 2
        ensures InMap(vm, node[k].point) && IndexAt(vm, node[k].point) == k && node[k].point != p.point
      {
        if k != i {
          assert node[k] == a[k];
        } else {
          assert node[k] == a[i / 2];
        }
      }
    }

    /** The last step of NH_insert: the new node fills the gap, where heap order holds. */
    method FillGap(i: int, p: Node, vm: array3<Cell>)
      requires 1 <= i <= size < node.Length
      requires i == 1 || node[i / 2].f <= p.f
      requires GapOrdered(node[..], size, i, p) && IndexedBut(node[..], size, i, vm, p.point)
      requires InMap(vm, p.point)
      modifies node, vm
      ensures node[..] == old(node[..])[i := p]
      ensures HeapOrder(node[..], size) && Indexed(node[..], size, vm)
      ensures MarksOnly(vm, {p.point}) && IndexAt(vm, p.point) == i
    {
      ghost var a := node[..];
      node[i] := p;
      vm[p.point.x, p.point.y, p.point.z] := vm[p.point.x, p.point.y, p.point.z].(indexHeap := i);
      forall k | 1 <= k <= size
        ensures InMap(vm, node[k].point) && IndexAt(vm, node[k].point) == k
      {
        if k != i {
          assert node[k] == a[k];
        }
      }
    }

    /** NH_extractMin: takes the root out, moves the last node to the root and sifts it down.
        An empty heap makes the program exit, here None. */
    method ExtractMin(vm: array3<Cell>) returns (min: Option<Node>)
      requires 0 <= size
      requires HeapOrder(node[..], size) && Indexed(node[..], size, vm)
      modifies this, node, vm
      ensures old(size) == 0 ==> min == None && size == 0
      ensures old(size) >= 1 ==>
        min == Some(old(node[1])) && size == old(size) - 1 &&
        (forall k :: 1 <= k <= old(size) ==> min.value.f <= old(node[k]).f) &&
        Contents(node[..], size) + multiset{min.value} == old(Contents(node[..], size)) &&
        InMap(vm, min.value.point) &&
        IndexAt(vm, min.value.point) == (if old(size) == 1 then 1 else -1)
      ensures HeapOrder(node[..], size) && Indexed(node[..], size, vm)
      ensures MarksOnly(vm, {})
    {
      if size < 1 {
        return None;
      }
      forall k | 1 <= k <= size
        ensures node[1].f <= node[k].f
      {
        RootIsMin(node[..], size, k);
      }
      var m := TakeRoot(vm);
      min := Some(m);
      Stack(1, vm);
    }

    /** The first half of NH_extractMin: the root leaves the heap, marked -1 in the voxel map,
        and the last node takes its place (when the root was the only node, that is itself,
        whose mark becomes 1 again). */
    method TakeRoot(vm: array3<Cell>) returns (m: Node)
      requires 1 <= size
      requires HeapOrder(node[..], size) && Indexed(node[..], size, vm)
      modifies this, node, vm
      ensures m == old(node[1]) && size == old(size) - 1
      ensures Contents(node[..], size) + multiset{m} == old(Contents(node[..], size))
      ensures OrderedBelow(node[..], size, 1) && Indexed(node[..], size, vm)
      ensures InMap(vm, m.point) && IndexAt(vm, m.point) == (if old(size) == 1 then 1 else -1)
      ensures MarksOnly(vm, {})
    {
      ExtractContents(node[..], size);
      ExtractOrder(node[..], size);
      ghost var a := node[..];
      m := node[1];
      var last := node[size];
      size := size - 1;
      node[1] := last;
      ghost var b := node[..];
      assert b == a[1 := last];
      Mark(vm, m.point, -1);
      Mark(vm, last.point, 1);
      forall k | 1 <= k <= size
        ensures InMap(vm, b[k].point) && IndexAt(vm, b[k].point) == k
      {
        if k > 1 {
          assert b[k] == a[k];
        }
      }
      assert Indexed(b, size, vm);
    }

    /** NH_increase_priority as written: the node at the position the voxel map records for
        point gets g = distG and f = g + h, then climbs at most one level. */
    method IncreasePriority(point: Point3D, distG: real, vm: array3<Cell>)
      requires 0 <= size && Indexed(node[..], size, vm)
      requires InMap(vm, point) && 1 <= IndexAt(vm, point) <= size
      modifies node, vm
      ensures node[..] == RaisedOnce(old(node[..]), old(IndexAt(vm, point)), distG)
      ensures Indexed(node[..], size, vm)
      ensures MarksOnly(vm, {})
    {
      var i := vm[point.x, point.y, point.z].indexHeap;
      ghost var b := Rekeyed(node[..], i, distG);
      node[i] := node[i].(g := distG);
      node[i] := node[i].(f := node[i].g + node[i].h);
      assert node[..] == b;
      while i > 1 && node[i / 2].f > node[i].f
        invariant node[..] == b || (i > 1 && b[i / 2].f > b[i].f && node[..] == Swapped(b, i, i / 2))
        invariant Indexed(node[..], size, vm)
        invariant MarksOnly(vm, {})
        decreases if i > 1 && node[i / 2].f > node[i].f then 1 else 0
      {
        Swap(i, i / 2, vm);
      }
    }

    /** The decrease-key the search needs: as NH_increase_priority, but the node keeps climbing
        while its parent has a larger f, so heap order is restored. The new f must not exceed
        the old one. */
    method DecreaseKey(point: Point3D, distG: real, vm: array3<Cell>)
      requires 0 <= size
      requires HeapOrder(node[..], size) && Indexed(node[..], size, vm)
      requires InMap(vm, point) && 1 <= IndexAt(vm, point) <= size
      requires distG + node[IndexAt(vm, point)].h <= node[IndexAt(vm, point)].f
      modifies node, vm
      ensures HeapOrder(node[..], size) && Indexed(node[..], size, vm)
      ensures Contents(node[..], size) ==
        old(Contents(node[..], size)) - multiset{old(node[IndexAt(vm, point)])} +
        multiset{Rekeyed(old(node[..]), old(IndexAt(vm, point)), distG)[old(IndexAt(vm, point))]}
      ensures MarksOnly(vm, {})
    {
      var i := vm[point.x, point.y, point.z].indexHeap;
      ghost var a := node[..];
      var v := node[i].(g := distG);
      v := v.(f := v.g + v.h);
      assert v == Rekeyed(a, i, distG)[i];
      UpdateContents(a, size, i, v);
      LoweredOrder(a, size, i, v);
      RepointIndexed(a, size, i, v, vm);
      node[i] := v;
      ghost var c := Contents(node[..], size);
      while i > 1 && node[i / 2].f > node[i].f
        invariant 1 <= i <= size
        invariant OrderedAbove(node[..], size, i)
        invariant Indexed(node[..], size, vm)
        invariant Contents(node[..], size) == c
        invariant MarksOnly(vm, {})
        decreases i
      {
        RaiseStep(i, vm);
        i := i / 2;
      }
      AboveDone(node[..], size, i);
    }

    /** One exchange of the decrease-key loop: the node at i climbs above its larger parent. */
    method RaiseStep(i: int, vm: array3<Cell>)
      requires 2 <= i <= size < node.Length && node[i / 2].f > node[i].f
      requires OrderedAbove(node[..], size, i) && Indexed(node[..], size, vm)
      modifies node, vm
      ensures OrderedAbove(node[..], size, i / 2) && Indexed(node[..], size, vm)
      ensures Contents(node[..], size) == old(Contents(node[..], size))
      ensures MarksOnly(vm, {})
    {
      SiftUpStep(node[..], size, i);
      SwapContents(node[..], size, i, i / 2);
      Swap(i, i / 2, vm);
    }
  }

  /** Lowering the f of one held node leaves the heap out of order only above it. */
  lemma LoweredOrder(a: seq<Node>, size: int, i: int, v: Node)
    requires HeapOrder(a, size) && 1 <= i <= size < |a| && v.f <= a[i].f
    ensures OrderedAbove(a[i := v], size, i)
  {
    var b := a[i := v];
    forall k | 2 <= k <= size && k != i
      ensures b[k / 2].f <= b[k].f
    {
      assert b[k] == a[k];
    }
    forall k | 2 <= k <= size && k / 2 == i && i >= 2
      ensures b[i / 2].f <= b[k].f
    {
      assert b[k] == a[k] && b[i / 2] == a[i / 2];
    }
  }

  /** Replacing a held node by one at the same voxel keeps the position map right. */
  lemma RepointIndexed(a: seq<Node>, size: int, i: int, v: Node, vm: array3<Cell>)
    requires Indexed(a, size, vm) && 1 <= i <= size && v.point == a[i].point
    ensures Indexed(a[i := v], size, vm)
  {
    var b := a[i := v];
    forall k | 1 <= k <= size
      ensures InMap(vm, b[k].point) && IndexAt(vm, b[k].point) == k
    {
    }
  }

  /** Once i is at the root or under a parent with no larger f, the heap is in order. */
  lemma AboveDone(a: seq<Node>, size: int, i: int)
    requires OrderedAbove(a, size, i) && 1 <= i
    requires !(i > 1 && i < |a| && a[i / 2].f > a[i].f)
    ensures HeapOrder(a, size)
  {
  }

  /** The position map is right everywhere but at the gap i, and no held node is at point q. */
  ghost predicate IndexedBut(a: seq<Node>, size: int, i: int, vm: array3<Cell>, q: Point3D)
    reads vm
  {
    size < |a| &&
    forall k :: 1 <= k <= size && k != i ==>
      InMap(vm, a[k].point) && IndexAt(vm, a[k].point) == k && a[k].point != q
  }

  /** Heap order around a gap at position i that p is waiting to fill: every link not touching
      the gap holds, p fits above the gap's children, and so does the gap's parent. */
  ghost predicate GapOrdered(a: seq<Node>, size: int, i: int, p: Node)
  {
    (forall k :: 2 <= k <= size && k < |a| && k != i && k / 2 != i ==> a[k / 2].f <= a[k].f) &&
    (forall k :: 2 <= k <= size && k < |a| && k / 2 == i ==> p.f <= a[k].f) &&
    (forall k :: 2 <= k <= size && k < |a| && k / 2 == i && i >= 2 ==> a[i / 2].f <= a[k].f)
  }

  /** A heap with one more slot, empty and waiting for p, is ordered around that gap. */
  lemma GapStart(a: seq<Node>, size: int, p: Node)
    requires HeapOrder(a, size) && 0 <= size && size + 1 < |a|
    ensures GapOrdered(a, size + 1, size + 1, p)
  {
  }

  /** A heap with one more slot, empty and waiting for a node at q held nowhere else, has its
      position map right outside that gap. */
  lemma IndexedStart(a: seq<Node>, size: int, vm: array3<Cell>, q: Point3D)
    requires Indexed(a, size, vm) && 0 <= size && size + 1 < |a|
    requires forall k :: 1 <= k <= size ==> a[k].point != q
    ensures IndexedBut(a, size + 1, size + 1, vm, q)
  {
  }

  /** Moving the gap's parent down into the gap, and so the gap up, keeps the nodes held once p
      fills the gap. */
  lemma GapContents(a: seq<Node>, size: int, i: int, p: Node)
    requires 2 <= i <= size < |a|
    ensures Contents(a[i := a[i / 2]][i / 2 := p], size) == Contents(a[i := p], size)
  {
    SwapContents(a[i := p], size, i, i / 2);
    assert a[i := a[i / 2]][i / 2 := p] == Swapped(a[i := p], i, i / 2);
  }

  /** Moving a parent larger than p down into the gap moves the gap up one level. */
  lemma GapStep(a: seq<Node>, size: int, i: int, p: Node)
    requires 2 <= i <= size < |a|
    requires GapOrdered(a, size, i, p)
    requires a[i / 2].f > p.f
    ensures GapOrdered(a[i := a[i / 2]], size, i / 2, p)
  {
    var b := a[i := a[i / 2]];
    var g := i / 2;
    forall k | 2 <= k <= size && k != g && k / 2 != g
      ensures b[k / 2].f <= b[k].f
    {
      if k / 2 == i {
        assert b[k] == a[k];
      } else if k != i {
        assert b[k] == a[k] && b[k / 2] == a[k / 2];
      }
    }
    forall k | 2 <= k <= size && k / 2 == g
      ensures p.f <= b[k].f
    {
      if k != i {
        assert b[k] == a[k];
        assert a[g].f <= a[k].f;
      }
    }
    forall k | 2 <= k <= size && k / 2 == g && g >= 2
      ensures b[g / 2].f <= b[k].f
    {
      assert b[g / 2] == a[g / 2];
      assert a[g / 2].f <= a[g].f;
      if k != i {
        assert b[k] == a[k];
        assert a[g].f <= a[k].f;
      }
    }
  }
}
