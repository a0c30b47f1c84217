/**
 * Cycle search in a dependency graph: GPH_cycle and GPH_seekCycle of src/structureGph.c.
 *
 * GPH_cycle is a depth-first search that keeps the ids of the current path in a List_t. From
 * each vertex it tries the first nbNeighbors entries of its list, skipping the vertex it came
 * from, and succeeds when it gets back to the first id of the path; the path never exceeds six
 * ids. CycleFrom/AnyFrom give its answer as a function of the path, and CycleIffWalk shows what
 * that answer means: a simple closed walk of at most six vertices.
 *
 * GPH_seekCycle first strips pendant vertices from the graph, repeatedly, then keeps the
 * vertices on which GPH_cycle succeeds.
 */
module GraphCycles {
  import opened Constants
  import opened IdLists
  import opened Graphs

  /** Every used slot's counter fits its list and counts only ids of vertices, so the search
      never reads past a list nor looks up an id that is not a vertex. */
  ghost predicate Walkable(vs: seq<Vertex>)
  {
    forall k :: 0 <= k < |vs| && vs[k].id != FREE ==>
      0 <= vs[k].count <= |vs[k].nbhd| &&
      forall i :: 0 <= i < vs[k].count ==> HasVertex(vs, vs[k].nbhd[i])
  }

  /** The neighbours the search tries from x: the first nbNeighbors entries of its list (none
      when x is not found or its counter does not fit its list, which Walkable rules out). */
  function Listed(vs: seq<Vertex>, x: int): seq<int>
  {
    var k := IndexOfVertex(vs, x);
    if k == -1 || !(0 <= vs[k].count <= |vs[k].nbhd|) then [] else vs[k].nbhd[..vs[k].count]
  }

  /** On a walkable graph, the neighbours tried from a vertex are vertices. */
  lemma ListedVertices(vs: seq<Vertex>, x: int)
    requires Walkable(vs) && HasVertex(vs, x)
    ensures var v := vs[IndexOfVertex(vs, x)]; 0 <= v.count <= |v.nbhd| && Listed(vs, x) == v.nbhd[..v.count]
    ensures forall y :: y in Listed(vs, x) ==> HasVertex(vs, y)
  {
  }

  /** GPH_cycle(g, l, x, prev) when l holds the path p: succeed on reaching the first id of the
      path; fail on a path of more than five ids or on an id already on it; otherwise push x and
      try x's neighbours other than prev in list order. */
  ghost function CycleFrom(vs: seq<Vertex>, p: seq<int>, x: int, prev: int): bool
    requires |p| <= 6
    decreases 6 - |p|, 0
  {
    if p != [] && x == p[0] then true
    else if |p| > 5 || x in p then false
    else AnyFrom(vs, p + [x], x, prev, 0)
  }

  /** The loop of GPH_cycle from the i-th neighbour of x on, with x already pushed on p. */
  ghost function AnyFrom(vs: seq<Vertex>, p: seq<int>, x: int, prev: int, i: nat): bool
    requires |p| <= 6 && i <= |Listed(vs, x)|
    decreases 6 - |p|, |Listed(vs, x)| - i + 1
  {
    var ns := Listed(vs, x);
    if i == |ns| then false
    else if ns[i] != prev && CycleFrom(vs, p, ns[i], x) then true
    else AnyFrom(vs, p, x, prev, i + 1)
  }

  /** The search can step from the j-th id of p to the next one. */
  ghost predicate StepAt(vs: seq<Vertex>, p: seq<int>, j: int)
    requires 0 <= j < |p| - 1
  {
    p[j + 1] in Listed(vs, p[j])
  }

  /** A path the search can hold: at most six distinct vertices, each listed by the one before. */
  ghost predicate OpenWalk(vs: seq<Vertex>, p: seq<int>)
  {
    1 <= |p| <= 6 && NoDup(p) && forall j :: 0 <= j < |p| - 1 ==> StepAt(vs, p, j)
  }

  /** A cycle the search can find: such a path whose last vertex lists the first one. It cannot
      have two vertices, because the search never steps straight back. */
  ghost predicate CycleWalk(vs: seq<Vertex>, w: seq<int>)
  {
    OpenWalk(vs, w) && |w| != 2 && w[0] in Listed(vs, w[|w| - 1])
  }

  /** The loop of GPH_cycle succeeds exactly when one of the remaining neighbours does. */
  lemma {:induction false} AnyFromSome(vs: seq<Vertex>, p: seq<int>, x: int, prev: int, i: nat)
    requires |p| <= 6 && i <= |Listed(vs, x)|
    ensures AnyFrom(vs, p, x, prev, i) <==>
      exists j :: i <= j < |Listed(vs, x)| && Listed(vs, x)[j] != prev &&
        CycleFrom(vs, p, Listed(vs, x)[j], x)
    decreases |Listed(vs, x)| - i
  {
    if i < |Listed(vs, x)| {
      AnyFromSome(vs, p, x, prev, i + 1);
    }
  }

  /** Pushing a listed neighbour that is not on the path yet keeps a path the search can hold. */
  lemma ExtendOpen(vs: seq<Vertex>, p: seq<int>, x: int)
    requires OpenWalk(vs, p) && |p| <= 5 && x !in p && x in Listed(vs, p[|p| - 1])
    ensures OpenWalk(vs, p + [x])
  {
    var q := p + [x];
    forall i | 0 <= i < |q| - 1
      ensures StepAt(vs, q, i)
    {
      if i < |p| - 1 {
        assert StepAt(vs, p, i);
      }
    }
    forall a, b | 0 <= a < b < |q|
      ensures q[a] != q[b]
    {
      if b < |p| {
        assert q[a] == p[a] && q[b] == p[b];
      }
    }
  }

  lemma PushThen(p: seq<int>, x: int, e: seq<int>)
    ensures p + ([x] + e) == (p + [x]) + e
  {
  }

  /** Whenever the search succeeds from path p at candidate x, p extends through x to a cycle:
      e is the rest of it after p. */
  lemma {:induction false} CycleFromSound(vs: seq<Vertex>, p: seq<int>, x: int) returns (e: seq<int>)
    requires OpenWalk(vs, p) && x in Listed(vs, p[|p| - 1])
    requires |p| >= 2 ==> x != p[|p| - 2]
    requires CycleFrom(vs, p, x, p[|p| - 1])
    ensures (if e == [] then x == p[0] else e[0] == x) && CycleWalk(vs, p + e)
    decreases 6 - |p|
  {
    if x == p[0] {
      e := [];
      assert p + e == p;
    } else {
      var last := p[|p| - 1];
      var q := p + [x];
      var ns := Listed(vs, x);
      AnyFromSome(vs, q, x, last, 0);
      var j :| 0 <= j < |ns| && ns[j] != last && CycleFrom(vs, q, ns[j], x);
      ExtendOpen(vs, p, x);
      var e' := CycleFromSound(vs, q, ns[j]);
      e := [x] + e';
      PushThen(p, x, e');
    }
  }

  /** Conversely, the search finds every cycle that extends path p through x. */
  lemma {:induction false} CycleFromComplete(vs: seq<Vertex>, p: seq<int>, x: int, e: seq<int>)
    requires OpenWalk(vs, p) && x in Listed(vs, p[|p| - 1])
    requires |p| >= 2 ==> x != p[|p| - 2]
    requires (if e == [] then x == p[0] else e[0] == x) && CycleWalk(vs, p + e)
    ensures CycleFrom(vs, p, x, p[|p| - 1])
    decreases |e|
  {
    if e != [] {
      var last := p[|p| - 1];
      var q := p + [x];
      var e' := e[1..];
      var y := if e' == [] then p[0] else e'[0];
      CompleteStep(vs, p, x, e);
      CycleFromComplete(vs, q, y, e');
      var ns := Listed(vs, x);
      var j :| 0 <= j < |ns| && ns[j] == y;
      AnyFromSome(vs, q, x, last, 0);
      CycleFromPush(vs, p, x, last);
    }
  }

  /** A candidate that is new on a path of at most five ids succeeds when one of its neighbours
      does. */
  lemma CycleFromPush(vs: seq<Vertex>, p: seq<int>, x: int, prev: int)
    requires |p| <= 5 && x !in p && AnyFrom(vs, p + [x], x, prev, 0)
    ensures CycleFrom(vs, p, x, prev)
  {
  }

  /** One step along a cycle: x, the vertex after path p, is new, and the path through x can
      hold the rest of the cycle, whose next vertex x lists and which does not step back. */
  lemma CompleteStep(vs: seq<Vertex>, p: seq<int>, x: int, e: seq<int>)
    requires OpenWalk(vs, p) && e != [] && e[0] == x && CycleWalk(vs, p + e)
    ensures x !in p && |p| <= 5
    ensures var q, e' := p + [x], e[1..]; var y := if e' == [] then p[0] else e'[0];
      OpenWalk(vs, q) && y in Listed(vs, q[|q| - 1]) && y != q[|q| - 2] &&
      (if e' == [] then y == q[0] else e'[0] == y) && CycleWalk(vs, q + e')
  {
    var w := p + e;
    var last := p[|p| - 1];
    assert x == w[|p|];
    assert x !in p by {
      forall k | 0 <= k < |p|
        ensures p[k] != x
      {
        assert w[k] == p[k];
      }
    }
    var q := p + [x];
    var e' := e[1..];
    assert w == q + e';
    var y := if e' == [] then p[0] else e'[0];
    assert y in Listed(vs, x) by {
      if e' != [] {
        assert StepAt(vs, w, |p|);
        assert w[|p| + 1] == y;
      }
    }
    assert y != last by {
      if e' != [] {
        assert w[|p| + 1] == y && w[|p| - 1] == last;
      }
    }
    assert OpenWalk(vs, q) by {
      forall j | 0 <= j < |q| - 1
        ensures StepAt(vs, q, j)
      {
        assert StepAt(vs, w, j);
        assert q[j] == w[j] && q[j + 1] == w[j + 1];
      }
      assert NoDup(q) by {
        forall i, j | 0 <= i < j < |q|
          ensures q[i] != q[j]
        {
          assert q[i] == w[i] && q[j] == w[j];
        }
      }
    }
  }

  /** GPH_cycle(g, l, id, -1) on an empty path answers 1 exactly when id lies on a simple closed
      walk of at most six vertices that never steps straight back. */
  lemma CycleIffWalk(vs: seq<Vertex>, id: int)
    requires Walkable(vs) && HasVertex(vs, id)
    ensures CycleFrom(vs, [], id, FREE) <==> exists w :: CycleWalk(vs, w) && w[0] == id
  {
    if CycleFrom(vs, [], id, FREE) {
      var w := FoundWalk(vs, id);
    }
    forall w | CycleWalk(vs, w) && w[0] == id
      ensures CycleFrom(vs, [], id, FREE)
    {
      WalkFound(vs, id, w);
    }
  }

  /** From an empty path the search pushes id and tries its neighbours. */
  lemma CycleFromEmpty(vs: seq<Vertex>, id: int)
    ensures CycleFrom(vs, [], id, FREE) == AnyFrom(vs, [id], id, FREE, 0)
  {
    assert [] + [id] == [id];
  }

  /** A success of the search from an empty path yields a cycle through id. */
  lemma FoundWalk(vs: seq<Vertex>, id: int) returns (w: seq<int>)
    requires CycleFrom(vs, [], id, FREE)
    ensures CycleWalk(vs, w) && w[0] == id
  {
    var ns := Listed(vs, id);
    CycleFromEmpty(vs, id);
    AnyFromSome(vs, [id], id, FREE, 0);
    assert OpenWalk(vs, [id]);
    var j :| 0 <= j < |ns| && ns[j] != FREE && CycleFrom(vs, [id], ns[j], id);
    var e := CycleFromSound(vs, [id], ns[j]);
    w := [id] + e;
  }

  /** Every cycle through id makes the search from an empty path succeed. */
  lemma WalkFound(vs: seq<Vertex>, id: int, w: seq<int>)
    requires Walkable(vs) && HasVertex(vs, id) && CycleWalk(vs, w) && w[0] == id
    ensures CycleFrom(vs, [], id, FREE)
  {
    var ns := Listed(vs, id);
    var x := WalkSecond(vs, w);
    ListedVertices(vs, id);
    assert x != FREE;
    var j :| 0 <= j < |ns| && ns[j] == x;
    AnyFromSome(vs, [id], id, FREE, 0);
    CycleFromEmpty(vs, id);
  }

  /** The search from the first vertex of a cycle succeeds at the vertex the cycle visits next. */
  lemma WalkSecond(vs: seq<Vertex>, w: seq<int>) returns (x: int)
    requires CycleWalk(vs, w)
    ensures x in Listed(vs, w[0]) && CycleFrom(vs, [w[0]], x, w[0])
  {
    var id := w[0];
    var e := w[1..];
    assert w == [id] + e;
    x := if e == [] then id else e[0];
    assert x in Listed(vs, id) by {
      if e != [] {
        assert StepAt(vs, w, 0);
        assert w[1] == x;
      }
    }
    assert OpenWalk(vs, [id]);
    CycleFromComplete(vs, [id], x, e);
  }

  /** Removing the last id pushed restores the path. */
  lemma DeleteFirstSnoc(xs: seq<int>, x: int)
    requires x !in xs
    ensures DeleteFirst(xs + [x], x) == xs
  {
    DeleteFirstAt(xs + [x], x, |xs|);
    assert (xs + [x])[..|xs|] == xs;
  }

  /** GPH_cycle. The path is the list l: its ids on return are those it had on entry. The test
      against the first slot also checks that l has a slot (see SeekCycleReadsMissingSlot). */
  method Cycle(g: Graph, l: IdList, id: int, idP: int) returns (tmp: int)
    requires Walkable(g.vertices) && HasVertex(g.vertices, id)
    requires Packed(l.elts) && |Ids(l.elts)| <= 6
    modifies l
    ensures Packed(l.elts) && Ids(l.elts) == Ids(old(l.elts))
    ensures tmp == if CycleFrom(g.vertices, Ids(old(l.elts)), id, idP) then 1 else 0
    decreases 2 * (6 - |Ids(l.elts)|) + 1
  {
    ghost var p := Ids(l.elts);
    if |l.elts| > 0 && id == l.elts[0] {
      return 1;
    }
    assert p != [] ==> p[0] == l.elts[0];
    var n := l.NbElements();
    CountIdsOfPacked(l.elts);
    var c := l.Check(id);
    if n > 5 || c == 1 {
      return 0;
    }
    l.AddElement(id);
    AddedIds(old(l.elts), id);
    tmp := Explore(g, l, id, idP);
    ghost var t := l.elts;
    l.RemoveElement(id);
    RemovedIds(t, id);
    DeleteFirstSnoc(p, id);
  }

  /** The loop of GPH_cycle, with id pushed on the path l: its neighbours other than idP are
      tried in list order until one succeeds. */
  method Explore(g: Graph, l: IdList, id: int, idP: int) returns (tmp: int)
    requires Walkable(g.vertices) && HasVertex(g.vertices, id)
    requires Packed(l.elts) && |Ids(l.elts)| <= 6
    modifies l
    ensures Packed(l.elts) && Ids(l.elts) == Ids(old(l.elts))
    ensures tmp == if AnyFrom(g.vertices, Ids(old(l.elts)), id, idP, 0) then 1 else 0
    decreases 2 * (6 - |Ids(l.elts)|) + 2
  {
    ghost var q := Ids(l.elts);
    var k := g.GetIndice(id);
    var v := g.vertices[k];
    ghost var ns := Listed(g.vertices, id);
    ListedVertices(g.vertices, id);
    var i := 0;
    tmp := 0;
    while i < v.count && tmp == 0
      invariant 0 <= i <= v.count == |ns| && ns == v.nbhd[..v.count]
      invariant Packed(l.elts) && Ids(l.elts) == q
      invariant tmp == 0 || tmp == 1
      invariant tmp == 1 ==> AnyFrom(g.vertices, q, id, idP, 0)
      invariant tmp == 0 ==> AnyFrom(g.vertices, q, id, idP, i) == AnyFrom(g.vertices, q, id, idP, 0)
      decreases v.count - i
    {
      if v.nbhd[i] != idP {
        assert ns[i] == v.nbhd[i] && ns[i] in ns;
        tmp := Cycle(g, l, v.nbhd[i], id);
      }
      i := i + 1;
    }
  }

  /*********************************************************************************************
   * GPH_seekCycle
   *********************************************************************************************/

  /** A consistent graph is walkable, and the search tries exactly a vertex's neighbour ids. */
  lemma GraphOkListed(vs: seq<Vertex>, x: int)
    requires GraphOk(vs)
    ensures Walkable(vs)
    ensures Listed(vs, x) == if HasVertex(vs, x) then Nbrs(vs[IndexOfVertex(vs, x)]) else []
  {
    forall k | 0 <= k < |vs| && vs[k].id != FREE
      ensures 0 <= vs[k].count <= |vs[k].nbhd|
      ensures forall i :: 0 <= i < vs[k].count ==> HasVertex(vs, vs[k].nbhd[i])
    {
      assert VertexOk(vs[k]);
      CountIdsOfPacked(vs[k].nbhd);
      forall i | 0 <= i < vs[k].count
        ensures HasVertex(vs, vs[k].nbhd[i])
      {
        assert vs[k].nbhd[i] == Nbrs(vs[k])[i] && Nbrs(vs[k])[i] in Nbrs(vs[k]);
      }
    }
    var k := IndexOfVertex(vs, x);
    if k != -1 {
      assert VertexOk(vs[k]);
      CountIdsOfPacked(vs[k].nbhd);
    }
  }

  /** ws is what pruning left of vs: the same slots, each keeping its id or unused, and each
      remaining vertex keeping some of its neighbours. */
  ghost predicate PrunedFrom(vs: seq<Vertex>, ws: seq<Vertex>)
  {
    |ws| == |vs| &&
    (forall k :: 0 <= k < |vs| ==> ws[k].id == vs[k].id || ws[k].id == FREE) &&
    (forall k, y :: 0 <= k < |vs| && ws[k].id != FREE && y in Nbrs(ws[k]) ==> y in Nbrs(vs[k]))
  }

  /** A cycle the search finds after pruning is a cycle of the graph before pruning. */
  lemma PrunedWalk(vs: seq<Vertex>, ws: seq<Vertex>, w: seq<int>)
    requires GraphOk(vs) && GraphOk(ws) && PrunedFrom(vs, ws) && CycleWalk(ws, w)
    ensures CycleWalk(vs, w)
  {
    forall a, b | b in Listed(ws, a)
      ensures b in Listed(vs, a)
    {
      GraphOkListed(ws, a);
      GraphOkListed(vs, a);
      var k := IndexOfVertex(ws, a);
      assert ws[k].id == a && a != FREE;
      assert vs[k].id == a;
      assert IndexOfVertex(vs, a) == k by {
        forall i | 0 <= i < k
          ensures vs[i].id != a
        {
          assert ws[i].id != a;
        }
      }
    }
    forall j | 0 <= j < |w| - 1
      ensures StepAt(vs, w, j)
    {
      assert StepAt(ws, w, j);
    }
  }

  /** A vertex waiting in the pruning list: it has at most one neighbour, a non-empty list, and
      when it has none some slot is unused (the lookup of its first entry, FREE, finds it). */
  ghost predicate Queued(ws: seq<Vertex>, y: int)
  {
    HasVertex(ws, y) &&
    var v := ws[IndexOfVertex(ws, y)];
    0 <= v.count <= 1 && |v.nbhd| > 0 && (v.count == 0 ==> IndexOfVertex(ws, FREE) != -1)
  }

  /** The state the pruning loop of GPH_seekCycle keeps: a consistent graph pruned from vs, and
      a duplicate-free list of queued vertices holding every vertex with exactly one neighbour. */
  ghost predicate PruneInv(vs: seq<Vertex>, ws: seq<Vertex>, ls: seq<int>)
  {
    GraphOk(ws) && PrunedFrom(vs, ws) && Packed(ls) && NoDup(Ids(ls)) &&
    (forall y :: y in Ids(ls) ==> Queued(ws, y)) &&
    (forall k :: 0 <= k < |ws| && ws[k].id != FREE && ws[k].count == 1 ==> ws[k].id in Ids(ls))
  }

  /** The ids of the slots before i whose vertex passes keep, in slot order. */
  function Kept(vs: seq<Vertex>, i: nat, keep: Vertex -> bool): seq<int>
    requires i <= |vs|
  {
    if i == 0 then [] else Kept(vs, i - 1, keep) + (if keep(vs[i - 1]) then [vs[i - 1].id] else [])
  }

  /** The ids of the slots before i whose counter is 1, in slot order. */
  function PendantIds(vs: seq<Vertex>, i: nat): seq<int>
    requires i <= |vs|
  {
    Kept(vs, i, (v: Vertex) => v.count == 1)
  }

  /** The first vertex of the queue, its first list entry and the slot that entry names. */
  lemma PruneHead(vs: seq<Vertex>, ws: seq<Vertex>, ls: seq<int>)
    requires PruneInv(vs, ws, ls) && Ids(ls) != []
    ensures var x := Ids(ls)[0]; var iv := IndexOfVertex(ws, x);
      x == ls[0] && HasVertex(ws, x) && 0 <= iv && |ws[iv].nbhd| > 0 &&
      var n := ws[iv].nbhd[0]; var iu := IndexOfVertex(ws, n);
      iu != -1 && iu != iv && 0 <= ws[iv].count <= 1 &&
      (ws[iv].count == 1 ==> Nbrs(ws[iv]) == [n] && ws[iu].id == n && ws[iu].count >= 1) &&
      (ws[iv].count == 0 ==> Nbrs(ws[iv]) == [] && ws[iu].id == FREE && ws[iu].count == 0)
  {
    var x := Ids(ls)[0];
    assert x in Ids(ls) && Queued(ws, x);
    var iv := IndexOfVertex(ws, x);
    var v := ws[iv];
    assert VertexOk(v);
    CountIdsOfPacked(v.nbhd);
    var n := v.nbhd[0];
    if v.count == 1 {
      assert Nbrs(v) == [n];
      assert n in Nbrs(v);
      var iu := IndexOfVertex(ws, n);
      assert ws[iu].id == n && x in Nbrs(ws[iu]) && VertexOk(ws[iu]);
    } else {
      assert n == FREE;
      var iu := IndexOfVertex(ws, n);
      assert VertexOk(ws[iu]);
    }
  }

  /** What removing the vertex x at slot iv did to the other slots: only slot iu may have lost
      a neighbour (when drop holds), ids, lookups and list lengths are kept. */
  ghost predicate RemovedAround(ws: seq<Vertex>, r: seq<Vertex>, x: int, iv: nat, iu: nat, drop: bool)
  {
    |r| == |ws| && iv < |ws| && r[iv] == Unused &&
    (forall x' :: x' != FREE && x' != x ==> IndexOfVertex(r, x') == IndexOfVertex(ws, x')) &&
    (forall k :: 0 <= k < |ws| && k != iv ==> r[k].id == ws[k].id && |r[k].nbhd| == |ws[k].nbhd|) &&
    (forall k :: 0 <= k < |ws| && k != iv ==> forall y :: y in Nbrs(r[k]) ==> y in Nbrs(ws[k])) &&
    (forall k :: 0 <= k < |ws| && k != iv ==> r[k].count == ws[k].count - (if k == iu && drop then 1 else 0))
  }

  /** Removing a vertex with at most one neighbour changes only that neighbour's slot, whose
      counter drops by one; every list keeps its length. */
  lemma PruneRemoval(ws: seq<Vertex>, x: int, iu: int)
    requires GraphOk(ws) && HasVertex(ws, x)
    requires 0 <= iu < |ws| && iu != IndexOfVertex(ws, x)
    requires Nbrs(ws[IndexOfVertex(ws, x)]) == [] || Nbrs(ws[IndexOfVertex(ws, x)]) == [ws[iu].id]
    ensures RemovedVertex(ws, x).Some?
    ensures var r, iv := RemovedVertex(ws, x).value, IndexOfVertex(ws, x);
      GraphOk(r) && VertexCount(r) < VertexCount(ws) && RemovedAround(ws, r, x, iv, iu, Nbrs(ws[iv]) != [])
  {
    var iv := IndexOfVertex(ws, x);
    RemoveVertexDefined(ws, x);
    RemoveVertexCount(ws, x);
    var r := AfterRemoval(ws, iv, x);
    RemovalOk(ws, iv, x);
    FreedSlot(ws, r, iv, x);
    forall k | 0 <= k < |ws| && k != iv
      ensures r[k].id == ws[k].id && |r[k].nbhd| == |ws[k].nbhd|
      ensures forall y :: y in Nbrs(r[k]) ==> y in Nbrs(ws[k])
      ensures r[k].count == ws[k].count - (if k == iu && Nbrs(ws[iv]) != [] then 1 else 0)
    {
      PruneRemovalSlot(ws, x, iu, k);
    }
  }

  /** Removing a vertex with at most one neighbour from slot k other than its own. */
  lemma PruneRemovalSlot(ws: seq<Vertex>, x: int, iu: int, k: int)
    requires GraphOk(ws) && HasVertex(ws, x)
    requires 0 <= iu < |ws| && iu != IndexOfVertex(ws, x)
    requires Nbrs(ws[IndexOfVertex(ws, x)]) == [] || Nbrs(ws[IndexOfVertex(ws, x)]) == [ws[iu].id]
    requires 0 <= k < |ws| && k != IndexOfVertex(ws, x)
    ensures var r, iv := AfterRemoval(ws, IndexOfVertex(ws, x), x), IndexOfVertex(ws, x);
      r[k].id == ws[k].id && |r[k].nbhd| == |ws[k].nbhd| &&
      (forall y :: y in Nbrs(r[k]) ==> y in Nbrs(ws[k])) &&
      r[k].count == ws[k].count - (if k == iu && Nbrs(ws[iv]) != [] then 1 else 0)
  {
    var iv := IndexOfVertex(ws, x);
    var r := AfterRemoval(ws, iv, x);
    RemovalSlot(ws, iv, x, k);
    assert VertexOk(ws[k]) && VertexOk(r[k]);
    if ws[k].id in Nbrs(ws[iv]) {
      RemovedIds(ws[k].nbhd, x);
    }
    assert x in Nbrs(ws[k]) <==> ws[k].id in Nbrs(ws[iv]) by {
      if x in Nbrs(ws[k]) {
        assert ws[k].id in Nbrs(ws[IndexOfVertex(ws, x)]);
      }
      if ws[k].id in Nbrs(ws[iv]) {
        assert ws[k].id != FREE ==> IndexOfVertex(ws, ws[k].id) == k;
      }
    }
    if k == iu && Nbrs(ws[iv]) != [] {
      DeleteFirstFacts(Nbrs(ws[k]), x);
    } else {
      assert ws[k].id !in Nbrs(ws[iv]) by {
        if Nbrs(ws[iv]) != [] {
          assert ws[k].id != FREE ==> IndexOfVertex(ws, ws[k].id) == k;
        }
      }
      DeleteFirstAbsent(Nbrs(ws[k]), x);
    }
  }

  /** The tail of a duplicate-free sequence holds all its elements but the head. */
  lemma TailMembers(xs: seq<int>)
    requires NoDup(xs) && xs != []
    ensures forall y :: y in xs[1..] <==> y in xs && y != xs[0]
  {
    forall y
      ensures y in xs[1..] <==> y in xs && y != xs[0]
    {
      if y in xs[1..] {
        var j :| 0 <= j < |xs| - 1 && xs[1..][j] == y;
        assert xs[j + 1] == y;
      }
      if y in xs && y != xs[0] {
        var j :| 0 <= j < |xs| && xs[j] == y;
        assert j != 0 && xs[1..][j - 1] == y;
      }
    }
  }

  /** The queue after one round: the head x leaves, n joins when add holds. */
  lemma QueueRound(ls: seq<int>, x: int, n: int, add: bool)
    requires Packed(ls) && NoDup(Ids(ls)) && Ids(ls) != [] && x == Ids(ls)[0] && (add ==> n != FREE)
    ensures var ls1 := if add then Added(ls, n) else ls; var ls2 := Removed(ls1, x);
      ls1[0] == x && Packed(ls2) && NoDup(Ids(ls2)) &&
      forall y :: y in Ids(ls2) <==> (y in Ids(ls) || (add && y == n)) && y != x
  {
    QueueAdd(ls, x, n, add);
    QueueDrop(if add then Added(ls, n) else ls, x);
  }

  /** Queueing n keeps the head and the ids distinct. */
  lemma QueueAdd(ls: seq<int>, x: int, n: int, add: bool)
    requires Packed(ls) && NoDup(Ids(ls)) && Ids(ls) != [] && x == Ids(ls)[0] && (add ==> n != FREE)
    ensures var ls1 := if add then Added(ls, n) else ls;
      Packed(ls1) && NoDup(Ids(ls1)) && Ids(ls1) != [] && Ids(ls1)[0] == x && ls1[0] == x &&
      forall y :: y in Ids(ls1) <==> y in Ids(ls) || (add && y == n)
  {
    var ls1 := if add then Added(ls, n) else ls;
    if add {
      AddedIds(ls, n);
      AddedNoDup(ls, n);
    }
    PackedLayout(ls1);
  }

  /** Removing the head of the queue leaves the other ids, still distinct. */
  lemma QueueDrop(ls1: seq<int>, x: int)
    requires Packed(ls1) && NoDup(Ids(ls1)) && Ids(ls1) != [] && Ids(ls1)[0] == x
    ensures var ls2 := Removed(ls1, x);
      Packed(ls2) && NoDup(Ids(ls2)) && forall y :: y in Ids(ls2) <==> y in Ids(ls1) && y != x
  {
    var ls2 := Removed(ls1, x);
    RemovedIds(ls1, x);
    DeleteFirstAt(Ids(ls1), x, 0);
    assert Ids(ls2) == Ids(ls1)[1..];
    TailMembers(Ids(ls1));
  }

  /** Every vertex left in the queue after one round is still queued. */
  lemma PruneQueued(ws: seq<Vertex>, r: seq<Vertex>, ls: seq<int>, ls2: seq<int>, x: int, iv: nat, iu: nat, drop: bool)
    requires GraphOk(r) && RemovedAround(ws, r, x, iv, iu, drop) && iu < |ws|
    requires iv == IndexOfVertex(ws, x)
    requires ws[iu].id != FREE ==> IndexOfVertex(ws, ws[iu].id) == iu
    requires forall y :: y in Ids(ls) ==> Queued(ws, y)
    requires forall y :: y in Ids(ls2) ==> y != x && y != FREE && (y in Ids(ls) || (ws[iu].count == 2 && y == ws[iu].id))
    requires ws[iu].count == 2 ==> drop && |ws[iu].nbhd| >= 2
    ensures forall y :: y in Ids(ls2) ==> Queued(r, y)
  {
    forall y | y in Ids(ls2)
      ensures Queued(r, y)
    {
      var k := IndexOfVertex(ws, y);
      if y in Ids(ls) {
        assert Queued(ws, y);
      }
      assert k != -1 && k != iv;
      assert IndexOfVertex(r, y) == k;
      assert VertexOk(r[k]);
      assert r[iv].id == FREE;
    }
  }

  /** After one round every vertex with exactly one neighbour is still in the queue. */
  lemma PruneCovered(ws: seq<Vertex>, r: seq<Vertex>, ls: seq<int>, ls2: seq<int>, x: int, iv: nat, iu: nat, drop: bool)
    requires UniqueIds(ws) && RemovedAround(ws, r, x, iv, iu, drop) && ws[iv].id == x && iu < |ws|
    requires forall k :: 0 <= k < |ws| && ws[k].id != FREE && ws[k].count == 1 ==> ws[k].id in Ids(ls)
    requires forall y :: (y in Ids(ls) || (ws[iu].count == 2 && y == ws[iu].id)) && y != x ==> y in Ids(ls2)
    ensures forall k :: 0 <= k < |r| && r[k].id != FREE && r[k].count == 1 ==> r[k].id in Ids(ls2)
  {
    forall k | 0 <= k < |r| && r[k].id != FREE && r[k].count == 1
      ensures r[k].id in Ids(ls2)
    {
      assert k != iv && r[k].id == ws[k].id;
      assert ws[k].id != x by {
        assert ws[k].id != FREE ==> IndexOfVertex(ws, ws[k].id) == k;
        assert x != FREE ==> IndexOfVertex(ws, x) == iv;
      }
    }
  }

  /** Pruning one more vertex still leaves a graph pruned from the original one. */
  lemma PrunedKeeps(vs: seq<Vertex>, ws: seq<Vertex>, r: seq<Vertex>, x: int, iv: nat, iu: nat, drop: bool)
    requires PrunedFrom(vs, ws) && RemovedAround(ws, r, x, iv, iu, drop)
    ensures PrunedFrom(vs, r)
  {
    forall k, y | 0 <= k < |vs| && r[k].id != FREE && y in Nbrs(r[k])
      ensures y in Nbrs(vs[k])
    {
      assert k != iv && y in Nbrs(ws[k]);
    }
  }

  /** One round of the pruning loop keeps PruneInv and removes one vertex. */
  lemma PruneStep(vs: seq<Vertex>, ws: seq<Vertex>, ls: seq<int>, ls1: seq<int>, x: int, iv: nat, iu: nat)
    requires PruneInv(vs, ws, ls) && Ids(ls) != [] && x == Ids(ls)[0]
    requires iv == IndexOfVertex(ws, x) && |ws[iv].nbhd| > 0 && iu == IndexOfVertex(ws, ws[iv].nbhd[0])
    requires ls1 == if ws[iu].count == 2 then Added(ls, ws[iu].id) else ls
    ensures |ls1| > 0 && ls1[0] == x && RemovedVertex(ws, x).Some?
    ensures PruneInv(vs, RemovedVertex(ws, x).value, Removed(ls1, x))
    ensures VertexCount(RemovedVertex(ws, x).value) < VertexCount(ws)
  {
    PruneHead(vs, ws, ls);
    assert Nbrs(ws[iv]) == [] || Nbrs(ws[iv]) == [ws[iu].id];
    var add := ws[iu].count == 2;
    var ls2 := Removed(ls1, x);
    QueueRound(ls, x, ws[iu].id, add);
    PruneRemoval(ws, x, iu);
    var r := RemovedVertex(ws, x).value;
    var drop := Nbrs(ws[iv]) != [];
    assert add ==> drop && |ws[iu].nbhd| >= 2 by {
      assert VertexOk(ws[iu]);
    }
    assert ws[iu].id != FREE ==> IndexOfVertex(ws, ws[iu].id) == iu;
    PruneQueued(ws, r, ls, ls2, x, iv, iu, drop);
    PruneCovered(ws, r, ls, ls2, x, iv, iu, drop);
    PrunedKeeps(vs, ws, r, x, iv, iu, drop);
  }

  /** The ids after and before position j on a cycle walk, the cycle closing at the end. */
  lemma CycleAround(vs: seq<Vertex>, w: seq<int>, j: nat) returns (s: nat, q: nat)
    requires CycleWalk(vs, w) && j < |w|
    ensures s < |w| && q < |w| && w[s] in Listed(vs, w[j]) && w[j] in Listed(vs, w[q])
    ensures |w| >= 3 ==> w[s] != w[q]
  {
    var m := |w|;
    s := if j + 1 < m then j + 1 else 0;
    q := if j > 0 then j - 1 else m - 1;
    if j + 1 < m {
      assert StepAt(vs, w, j);
    }
    if j > 0 {
      assert StepAt(vs, w, j - 1);
    }
  }

  /** A consistent graph has no loop, so its short cycles have at least three vertices. */
  lemma CycleLong(vs: seq<Vertex>, w: seq<int>)
    requires GraphOk(vs) && CycleWalk(vs, w)
    ensures |w| >= 3
  {
    if |w| == 1 {
      GraphOkListed(vs, w[0]);
    }
  }

  /** On a consistent graph every vertex of a short cycle has at least two neighbours. */
  lemma CycleVertexBusy(ws: seq<Vertex>, w: seq<int>, j: nat)
    requires GraphOk(ws) && CycleWalk(ws, w) && j < |w|
    ensures HasVertex(ws, w[j]) && |Nbrs(ws[IndexOfVertex(ws, w[j])])| >= 2
  {
    var s, q := CycleAround(ws, w, j);
    CycleLong(ws, w);
    GraphOkListed(ws, w[j]);
    GraphOkListed(ws, w[q]);
    var ij, iq := IndexOfVertex(ws, w[j]), IndexOfVertex(ws, w[q]);
    assert ws[iq].id == w[q] && w[j] in Nbrs(ws[iq]);
    assert w[q] in Nbrs(ws[ij]) && w[s] in Nbrs(ws[ij]);
  }

  /** GPH_removeVertex of x keeps every edge between two other vertices. */
  lemma RemovalKeepsEdge(ws: seq<Vertex>, x: int, a: int, b: int)
    requires GraphOk(ws) && HasVertex(ws, x) && a != x && b != x && b in Listed(ws, a)
    ensures RemovedVertex(ws, x).Some? && b in Listed(RemovedVertex(ws, x).value, a)
  {
    RemoveVertexOk(ws, x);
    var r, ix := RemovedVertex(ws, x).value, IndexOfVertex(ws, x);
    FreedSlot(ws, r, ix, x);
    GraphOkListed(ws, a);
    GraphOkListed(r, a);
    var ia := IndexOfVertex(ws, a);
    assert IndexOfVertex(r, a) == ia && ia != ix;
    assert VertexOk(ws[ia]);
    DeleteFirstFacts(Nbrs(ws[ia]), x);
  }

  /** Removing a vertex with at most one neighbour keeps every short cycle. */
  lemma PruneKeepsWalk(ws: seq<Vertex>, x: int, w: seq<int>)
    requires GraphOk(ws) && HasVertex(ws, x) && ws[IndexOfVertex(ws, x)].count <= 1 && CycleWalk(ws, w)
    ensures RemovedVertex(ws, x).Some? && CycleWalk(RemovedVertex(ws, x).value, w)
  {
    RemoveVertexOk(ws, x);
    var r := RemovedVertex(ws, x).value;
    assert VertexOk(ws[IndexOfVertex(ws, x)]);
    assert x !in w by {
      if x in w {
        var j :| 0 <= j < |w| && w[j] == x;
        CycleVertexBusy(ws, w, j);
      }
    }
    forall j | 0 <= j < |w| - 1
      ensures StepAt(r, w, j)
    {
      assert StepAt(ws, w, j);
      RemovalKeepsEdge(ws, x, w[j], w[j + 1]);
    }
    RemovalKeepsEdge(ws, x, w[|w| - 1], w[0]);
  }

  /** One round of the pruning loop keeps every short cycle of the graph. */
  lemma PruneKeepsWalks(vs: seq<Vertex>, ws: seq<Vertex>, ls: seq<int>)
    requires PruneInv(vs, ws, ls) && Ids(ls) != []
    requires forall w :: CycleWalk(vs, w) ==> CycleWalk(ws, w)
    ensures RemovedVertex(ws, Ids(ls)[0]).Some?
    ensures forall w :: CycleWalk(vs, w) ==> CycleWalk(RemovedVertex(ws, Ids(ls)[0]).value, w)
  {
    var x := Ids(ls)[0];
    assert x in Ids(ls) && Queued(ws, x);
    RemoveVertexOk(ws, x);
    forall w | CycleWalk(vs, w)
      ensures CycleWalk(RemovedVertex(ws, x).value, w)
    {
      PruneKeepsWalk(ws, x, w);
    }
  }

  /** When keep only passes used slots, the kept ids are, once each, the vertices of the slots
      before i that pass it. */
  lemma KeptFacts(vs: seq<Vertex>, i: nat, keep: Vertex -> bool)
    requires UniqueIds(vs) && i <= |vs|
    requires forall k :: 0 <= k < i && keep(vs[k]) ==> vs[k].id != FREE
    ensures NoDup(Kept(vs, i, keep))
    ensures forall y :: y in Kept(vs, i, keep) ==>
      HasVertex(vs, y) && IndexOfVertex(vs, y) < i && keep(vs[IndexOfVertex(vs, y)])
    ensures forall k :: 0 <= k < i && keep(vs[k]) ==> vs[k].id in Kept(vs, i, keep)
  {
    KeptMembers(vs, i, keep);
    KeptNoDup(vs, i, keep);
    KeptComplete(vs, i, keep);
  }

  /** Every kept id is the vertex of an earlier slot that passes keep. */
  lemma {:induction false} KeptMembers(vs: seq<Vertex>, i: nat, keep: Vertex -> bool)
    requires UniqueIds(vs) && i <= |vs|
    requires forall k :: 0 <= k < i && keep(vs[k]) ==> vs[k].id != FREE
    ensures forall y :: y in Kept(vs, i, keep) ==>
      HasVertex(vs, y) && IndexOfVertex(vs, y) < i && keep(vs[IndexOfVertex(vs, y)])
  {
    if i > 0 {
      KeptMembers(vs, i - 1, keep);
      var v := vs[i - 1];
      if keep(v) {
        assert v.id != FREE && IndexOfVertex(vs, v.id) == i - 1;
      }
    }
  }

  /** No id is kept twice. */
  lemma {:induction false} KeptNoDup(vs: seq<Vertex>, i: nat, keep: Vertex -> bool)
    requires UniqueIds(vs) && i <= |vs|
    requires forall k :: 0 <= k < i && keep(vs[k]) ==> vs[k].id != FREE
    ensures NoDup(Kept(vs, i, keep))
  {
    if i > 0 {
      KeptNoDup(vs, i - 1, keep);
      KeptMembers(vs, i - 1, keep);
      var v := vs[i - 1];
      if keep(v) {
        assert v.id != FREE && IndexOfVertex(vs, v.id) == i - 1;
        assert v.id !in Kept(vs, i - 1, keep);
      }
    }
  }

  /** Every earlier slot that passes keep has its id kept. */
  lemma {:induction false} KeptComplete(vs: seq<Vertex>, i: nat, keep: Vertex -> bool)
    requires i <= |vs|
    ensures forall k :: 0 <= k < i && keep(vs[k]) ==> vs[k].id in Kept(vs, i, keep)
  {
    if i > 0 {
      KeptComplete(vs, i - 1, keep);
    }
  }

  /** The queue GPH_seekCycle starts from holds, once each, exactly the vertices with one
      neighbour. */
  lemma PendantIdsFacts(vs: seq<Vertex>, i: nat)
    requires GraphOk(vs) && i <= |vs|
    ensures NoDup(PendantIds(vs, i))
    ensures forall y :: y in PendantIds(vs, i) ==>
      HasVertex(vs, y) && IndexOfVertex(vs, y) < i && vs[IndexOfVertex(vs, y)].count == 1
    ensures forall k :: 0 <= k < i && vs[k].id != FREE && vs[k].count == 1 ==> vs[k].id in PendantIds(vs, i)
  {
    var keep := (v: Vertex) => v.count == 1;
    forall k | 0 <= k < i && keep(vs[k])
      ensures vs[k].id != FREE
    {
      assert VertexOk(vs[k]);
    }
    KeptFacts(vs, i, keep);
  }

  /** The first loop of GPH_seekCycle sets up the pruning invariant. */
  lemma InitialQueue(vs: seq<Vertex>)
    requires GraphOk(vs)
    ensures var l0 := AddedAll([], PendantIds(vs, |vs|));
      Packed(l0) && Ids(l0) == PendantIds(vs, |vs|) && PruneInv(vs, vs, l0)
  {
    var ps := PendantIds(vs, |vs|);
    PendantIdsFacts(vs, |vs|);
    assert forall k :: 0 <= k < |ps| ==> ps[k] in ps;
    AddedAllIds([], ps);
    NewIdsFresh([], ps);
    assert Ids([]) == [];
    forall y | y in ps
      ensures Queued(vs, y)
    {
      var v := vs[IndexOfVertex(vs, y)];
      assert VertexOk(v);
    }
  }

  /** A used vertex y lies on a cycle of at most six vertices of vs. */
  ghost predicate OnShortCycle(vs: seq<Vertex>, y: int)
  {
    exists w :: CycleWalk(vs, w) && w[0] == y
  }

  /** The ids the last loop of GPH_seekCycle collects from the slots before i. */
  ghost function OnCycle(vs: seq<Vertex>, i: nat): seq<int>
    requires i <= |vs|
  {
    Kept(vs, i, (v: Vertex) => v.id != FREE && CycleFrom(vs, [], v.id, FREE))
  }

  /** The last loop of GPH_seekCycle collects the id of slot i when the search from it
      succeeds. */
  lemma OnCycleStep(vs: seq<Vertex>, i: nat)
    requires i < |vs|
    ensures var found := vs[i].id != FREE && CycleFrom(vs, [], vs[i].id, FREE);
      (found ==> OnCycle(vs, i + 1) == OnCycle(vs, i) + [vs[i].id]) &&
      (!found ==> OnCycle(vs, i + 1) == OnCycle(vs, i))
  {
    assert OnCycle(vs, i) + [] == OnCycle(vs, i);
  }

  /** The collected ids are, once each, the vertices the bounded search reports. */
  lemma OnCycleFacts(vs: seq<Vertex>, i: nat)
    requires GraphOk(vs) && i <= |vs|
    ensures NoDup(OnCycle(vs, i))
    ensures forall y :: y in OnCycle(vs, i) ==>
      HasVertex(vs, y) && IndexOfVertex(vs, y) < i && CycleFrom(vs, [], y, FREE)
    ensures forall k :: 0 <= k < i && vs[k].id != FREE && CycleFrom(vs, [], vs[k].id, FREE) ==> vs[k].id in OnCycle(vs, i)
  {
    KeptFacts(vs, i, (v: Vertex) => v.id != FREE && CycleFrom(vs, [], v.id, FREE));
  }

  /** The last loop of GPH_seekCycle never meets a collected id again. */
  lemma OnCycleBefore(vs: seq<Vertex>, i: nat)
    requires GraphOk(vs) && i < |vs| && vs[i].id != FREE
    ensures vs[i].id !in OnCycle(vs, i) && HasVertex(vs, vs[i].id)
  {
    OnCycleFacts(vs, i);
    assert IndexOfVertex(vs, vs[i].id) == i;
  }

  /** What the search reports on the pruned graph ws is what holds of the original graph vs. */
  lemma PrunedSearch(vs: seq<Vertex>, ws: seq<Vertex>, y: int)
    requires GraphOk(vs) && GraphOk(ws) && PrunedFrom(vs, ws)
    requires forall w :: CycleWalk(vs, w) ==> CycleWalk(ws, w)
    ensures (HasVertex(ws, y) && CycleFrom(ws, [], y, FREE)) <==> OnShortCycle(vs, y)
  {
    GraphOkListed(ws, y);
    if HasVertex(ws, y) {
      CycleIffWalk(ws, y);
      if CycleFrom(ws, [], y, FREE) {
        var w :| CycleWalk(ws, w) && w[0] == y;
        PrunedWalk(vs, ws, w);
      }
    }
    if OnShortCycle(vs, y) {
      var w :| CycleWalk(vs, w) && w[0] == y;
      CycleVertexBusy(ws, w, 0);
      CycleIffWalk(ws, y);
    }
  }

  /** The first loop of GPH_seekCycle: queue every slot whose counter is 1. */
  method PendantQueue(g: Graph) returns (l: IdList)
    ensures fresh(l) && l.elts == AddedAll([], PendantIds(g.vertices, |g.vertices|))
  {
    l := new IdList();
    for i := 0 to |g.vertices|
      invariant l.elts == AddedAll([], PendantIds(g.vertices, i))
    {
      PendantStep(g.vertices, i);
      AddedAllSnoc([], PendantIds(g.vertices, i), g.vertices[i].id);
      if g.vertices[i].count == 1 {
        l.AddElement(g.vertices[i].id);
      }
    }
  }

  /** The first loop of GPH_seekCycle queues the id of slot i when its counter is 1. */
  lemma PendantStep(vs: seq<Vertex>, i: nat)
    requires i < |vs|
    ensures vs[i].count == 1 ==> PendantIds(vs, i + 1) == PendantIds(vs, i) + [vs[i].id]
    ensures vs[i].count != 1 ==> PendantIds(vs, i + 1) == PendantIds(vs, i)
  {
    assert PendantIds(vs, i) + [] == PendantIds(vs, i);
  }

  /** One round of the pruning loop of GPH_seekCycle: queue the neighbour of the first queued
      vertex when it has two neighbours, then remove that vertex from the graph and the queue. */
  method PruneRound(g: Graph, l: IdList, ghost vs: seq<Vertex>)
    requires PruneInv(vs, g.vertices, l.elts) && Ids(l.elts) != []
    requires forall w :: CycleWalk(vs, w) ==> CycleWalk(g.vertices, w)
    modifies g, l
    ensures PruneInv(vs, g.vertices, l.elts) && VertexCount(g.vertices) < VertexCount(old(g.vertices))
    ensures forall w :: CycleWalk(vs, w) ==> CycleWalk(g.vertices, w)
  {
    ghost var ws, ls := g.vertices, l.elts;
    PruneHead(vs, ws, ls);
    ghost var x := l.elts[0];
    var iv := g.GetIndice(l.elts[0]);
    var v := g.vertices[iv];
    var iu := g.GetIndice(v.nbhd[0]);
    var u := g.vertices[iu];
    if u.count == 2 {
      l.AddElement(u.id);
    }
    ghost var ls1 := l.elts;
    PruneStep(vs, ws, ls, ls1, x, iv, iu);
    PruneKeepsWalks(vs, ws, ls);
    g.RemoveVertex(l.elts[0]);
    l.RemoveElement(l.elts[0]);
    assert g.vertices == RemovedVertex(ws, x).value && l.elts == Removed(ls1, x);
  }

  /** The pruning loop of GPH_seekCycle: it removes the queued vertices one by one, queueing a
      neighbour when it is about to drop to one neighbour, until the queue is empty. What is
      left has no vertex with exactly one neighbour and the same short cycles. */
  method Prune(g: Graph, l: IdList)
    requires GraphOk(g.vertices) && l.elts == AddedAll([], PendantIds(g.vertices, |g.vertices|))
    modifies g, l
    ensures GraphOk(g.vertices) && PrunedFrom(old(g.vertices), g.vertices)
    ensures forall w :: CycleWalk(old(g.vertices), w) ==> CycleWalk(g.vertices, w)
    ensures forall k :: 0 <= k < |g.vertices| && g.vertices[k].id != FREE ==> g.vertices[k].count != 1
    ensures Packed(l.elts) && Ids(l.elts) == []
  {
    ghost var vs := g.vertices;
    InitialQueue(vs);
    assert PruneInv(vs, g.vertices, l.elts);
    var n := l.NbElements();
    CountIdsOfPacked(l.elts);
    while n != 0
      invariant PruneInv(vs, g.vertices, l.elts) && n == |Ids(l.elts)|
      invariant forall w :: CycleWalk(vs, w) ==> CycleWalk(g.vertices, w)
      decreases VertexCount(g.vertices)
    {
      PruneRound(g, l, vs);
      n := l.NbElements();
      CountIdsOfPacked(l.elts);
    }
    PruneDone(vs, g.vertices, l.elts);
  }

  /** Once the queue is empty, no vertex is left with exactly one neighbour. */
  lemma PruneDone(vs: seq<Vertex>, ws: seq<Vertex>, ls: seq<int>)
    requires PruneInv(vs, ws, ls) && Ids(ls) == []
    ensures GraphOk(ws) && PrunedFrom(vs, ws) && Packed(ls)
    ensures forall k :: 0 <= k < |ws| && ws[k].id != FREE ==> ws[k].count != 1
  {
  }

  /** The last loop of GPH_seekCycle: collect every vertex the bounded search reports. */
  method CollectCycles(g: Graph, l: IdList) returns (out: IdList)
    requires GraphOk(g.vertices) && Packed(l.elts) && Ids(l.elts) == []
    modifies l
    ensures fresh(out) && Packed(out.elts) && Ids(out.elts) == OnCycle(g.vertices, |g.vertices|)
    ensures Packed(l.elts) && Ids(l.elts) == []
  {
    out := new IdList();
    for i := 0 to |g.vertices|
      invariant Packed(l.elts) && Ids(l.elts) == []
      invariant Packed(out.elts) && Ids(out.elts) == OnCycle(g.vertices, i)
    {
      CollectAt(g, l, out, i);
    }
  }

  /** One round of the last loop of GPH_seekCycle: the id of slot i joins the output when the
      search from it succeeds. */
  method CollectAt(g: Graph, l: IdList, out: IdList, i: nat)
    requires GraphOk(g.vertices) && i < |g.vertices| && l != out
    requires Packed(l.elts) && Ids(l.elts) == []
    requires Packed(out.elts) && Ids(out.elts) == OnCycle(g.vertices, i)
    modifies l, out
    ensures Packed(l.elts) && Ids(l.elts) == []
    ensures Packed(out.elts) && Ids(out.elts) == OnCycle(g.vertices, i + 1)
  {
    GraphOkListed(g.vertices, FREE);
    var id := g.vertices[i].id;
    OnCycleStep(g.vertices, i);
    if id != FREE {
      OnCycleBefore(g.vertices, i);
      var c := Cycle(g, l, id, FREE);
      if c == 1 {
        AddedIds(out.elts, id);
        out.AddElement(id);
      }
    }
  }

  /** GPH_seekCycle: prune the vertices with at most one neighbour, then run the bounded search
      from every remaining vertex. The result is exactly the set of vertices of the original
      graph that lie on a cycle of three to six vertices, and pruning removes none of them. */
  method SeekCycle(g: Graph) returns (out: IdList)
    requires GraphOk(g.vertices)
    modifies g
    ensures fresh(out) && Packed(out.elts) && NoDup(Ids(out.elts))
    ensures forall y :: y in Ids(out.elts) <==> OnShortCycle(old(g.vertices), y)
    ensures GraphOk(g.vertices) && PrunedFrom(old(g.vertices), g.vertices)
    ensures forall w :: CycleWalk(old(g.vertices), w) <==> CycleWalk(g.vertices, w)
    ensures forall k :: 0 <= k < |g.vertices| && g.vertices[k].id != FREE ==> g.vertices[k].count != 1
  {
    ghost var vs := g.vertices;
    var l := PendantQueue(g);
    Prune(g, l);
    ghost var ws := g.vertices;
    forall w | CycleWalk(ws, w)
      ensures CycleWalk(vs, w)
    {
      PrunedWalk(vs, ws, w);
    }
    out := CollectCycles(g, l);
    OnCycleFacts(ws, |ws|);
    forall y
      ensures y in Ids(out.elts) <==> OnShortCycle(vs, y)
    {
      PrunedSearch(vs, ws, y);
      if HasVertex(ws, y) {
        assert ws[IndexOfVertex(ws, y)].id == y;
      }
    }
  }

  /** Three vertices joined in a triangle. */
  function Triangle(): seq<Vertex>
  {
    [Vertex(0, [1, 2], 2), Vertex(1, [0, 2], 2), Vertex(2, [0, 1], 2)]
  }

  /** The neighbour lists of the triangle and the slot of each id. */
  lemma TriangleSlots()
    ensures Nbrs(Triangle()[0]) == [1, 2] && Nbrs(Triangle()[1]) == [0, 2] && Nbrs(Triangle()[2]) == [0, 1]
    ensures forall k :: 0 <= k < 3 ==> IndexOfVertex(Triangle(), k) == k
  {
    assert FirstFree([1, 2]) == 2 && FirstFree([0, 2]) == 2 && FirstFree([0, 1]) == 2;
    assert [1, 2][..2] == [1, 2] && [0, 2][..2] == [0, 2] && [0, 1][..2] == [0, 1];
    var t := Triangle();
    assert IndexOfVertex(t, 0) == 0 && IndexOfVertex(t, 1) == 1 && IndexOfVertex(t, 2) == 2;
  }

  /** The triangle is a consistent graph in which every vertex has two neighbours. */
  lemma TriangleOk()
    ensures GraphOk(Triangle())
    ensures Nbrs(Triangle()[0]) == [1, 2] && Nbrs(Triangle()[1]) == [0, 2] && Nbrs(Triangle()[2]) == [0, 1]
    ensures forall k :: 0 <= k < 3 ==> IndexOfVertex(Triangle(), k) == k
  {
    TriangleSlots();
    TriangleVertices();
    TriangleSymmetric();
  }

  /** Every slot of the triangle is consistent and found by its own id. */
  lemma TriangleVertices()
    ensures forall k :: 0 <= k < |Triangle()| ==> VertexOk(Triangle()[k])
    ensures UniqueIds(Triangle())
  {
    TriangleSlots();
    forall k | 0 <= k < |Triangle()|
      ensures VertexOk(Triangle()[k])
    {
      TriangleVertexOk(k);
    }
  }

  /** Each slot of the triangle is consistent. */
  lemma TriangleVertexOk(k: nat)
    requires k < 3
    ensures VertexOk(Triangle()[k])
  {
    TriangleSlots();
    assert Packed(Triangle()[k].nbhd);
  }

  /** Every neighbour in the triangle lists its vertex back. */
  lemma TriangleSymmetric()
    ensures Symmetric(Triangle())
  {
    var t := Triangle();
    TriangleSlots();
    forall k, n | 0 <= k < |t| && n in Nbrs(t[k])
      ensures n != t[k].id && IndexOfVertex(t, n) != -1 && t[k].id in Nbrs(t[IndexOfVertex(t, n)])
    {
      assert 0 <= n < 3 && IndexOfVertex(t, n) == n;
    }
  }

  /** GPH_seekCycle as written on a triangle: no vertex has exactly one neighbour, so its first
      loop stores nothing and leaves the list with no buffer at all, the pruning loop does not
      run, and the first GPH_cycle call compares the id with slot 0 of that empty buffer, although
      the vertex does lie on a short cycle. Cycle tests the buffer's size first. */
  lemma SeekCycleReadsMissingSlot()
    ensures GraphOk(Triangle()) && PendantIds(Triangle(), 3) == []
    ensures AddedAll([], PendantIds(Triangle(), 3)) == []
    ensures Triangle()[0].id != FREE && OnShortCycle(Triangle(), Triangle()[0].id)
  {
    TriangleOk();
    TrianglePendants();
    TriangleCycle();
  }

  /** No vertex of the triangle has exactly one neighbour. */
  lemma TrianglePendants()
    ensures PendantIds(Triangle(), 3) == []
  {
    var t := Triangle();
    assert t[0].count == 2 && t[1].count == 2 && t[2].count == 2;
    assert PendantIds(t, 1) == [];
    assert PendantIds(t, 2) == [];
  }

  /** The triangle is a short cycle through vertex 0. */
  lemma TriangleCycle()
    ensures OnShortCycle(Triangle(), 0)
  {
    var t := Triangle();
    TriangleSlots();
    assert Listed(t, 0) == [1, 2] && Listed(t, 1) == [0, 2] && Listed(t, 2) == [0, 1];
    var w := [0, 1, 2];
    assert StepAt(t, w, 0) && StepAt(t, w, 1);
    assert CycleWalk(t, w);
  }
}
