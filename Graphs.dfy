/**
 * The dependency graph Graph_t of src/structureGph.c: an array of vertex slots. A slot whose id
 * is FREE (-1) is unused; a used slot holds its vertex's neighbour list (an IdLists buffer) and a
 * separate neighbour counter nbNeighbors.
 *
 * The functions below give the effect of each operation on the slot sequence; the class Graph
 * carries the source's loops and is proved against them. GraphOk is the consistency the source
 * relies on (unique ids, packed duplicate-free lists, counters equal to the list counts,
 * symmetric adjacency, no self-loops); the lemmas show which operations keep it.
 */
module Graphs {
  import opened Constants
  import opened IdLists
  import opened Options

  datatype Vertex = Vertex(id: int, nbhd: seq<int>, count: int)

  /** A slot as GPH_initVertex leaves it. */
  const Unused: Vertex := Vertex(FREE, [], 0)

  /** The neighbour ids a scan of the list sees. */
  function Nbrs(v: Vertex): seq<int>
  {
    Ids(v.nbhd)
  }

  /** GPH_addNeighbor: add to the list and increment the counter unconditionally. */
  function AddNeighbor(v: Vertex, id: int): Vertex
  {
    v.(nbhd := Added(v.nbhd, id), count := v.count + 1)
  }

  /** GPH_removeNeighbor: remove from the list and decrement the counter unconditionally. */
  function RemoveNeighbor(v: Vertex, id: int): Vertex
  {
    v.(nbhd := Removed(v.nbhd, id), count := v.count - 1)
  }

  /*********************************************************************************************
   * Slot lookup
   *********************************************************************************************/

  function IndexFrom(vs: seq<Vertex>, id: int, i: nat): (r: int)
    requires i <= |vs|
    ensures r == -1 || (i <= r < |vs| && vs[r].id == id)
    ensures forall k :: i <= k < |vs| && (r == -1 || k < r) ==> vs[k].id != id
    decreases |vs| - i
  {
    if i == |vs| then -1 else if vs[i].id == id then i else IndexFrom(vs, id, i + 1)
  }

  /** GPH_getIndice: the first slot, used or not, whose id equals id; -1 when there is none. */
  function IndexOfVertex(vs: seq<Vertex>, id: int): (r: int)
    ensures -1 <= r < |vs|
    ensures r >= 0 ==> vs[r].id == id && forall k :: 0 <= k < r ==> vs[k].id != id
    ensures r == -1 <==> forall k :: 0 <= k < |vs| ==> vs[k].id != id
  {
    IndexFrom(vs, id, 0)
  }

  /** id names a vertex of the graph. */
  predicate HasVertex(vs: seq<Vertex>, id: int)
  {
    id != FREE && IndexOfVertex(vs, id) != -1
  }

  /** GPH_nbVertex: the number of used slots. */
  function VertexCount(vs: seq<Vertex>): nat
  {
    if vs == [] then 0
    else VertexCount(vs[..|vs| - 1]) + (if vs[|vs| - 1].id != FREE then 1 else 0)
  }

  /** n slots as GPH_addAlloc appends them. */
  function UnusedSlots(n: nat): seq<Vertex>
  {
    seq(n, _ => Unused)
  }

  /** The slots after GPH_getIndiceFree: REALLOCSIZE unused slots appended when none is free. */
  function WithUnused(vs: seq<Vertex>): seq<Vertex>
  {
    if IndexOfVertex(vs, FREE) == -1 then vs + UnusedSlots(REALLOCSIZE) else vs
  }

  /** The index GPH_getIndiceFree returns. */
  function FirstUnused(vs: seq<Vertex>): nat
  {
    if IndexOfVertex(vs, FREE) == -1 then |vs| else IndexOfVertex(vs, FREE)
  }

  /** The index GPH_addVertex returns. */
  function AddVertexAt(vs: seq<Vertex>, id: int): nat
  {
    var i := IndexOfVertex(vs, id);
    if i != -1 then i else FirstUnused(vs)
  }

  /** The slots after GPH_addVertex: an absent id is written into the first unused slot. */
  function AddedVertex(vs: seq<Vertex>, id: int): seq<Vertex>
  {
    if IndexOfVertex(vs, id) != -1 then vs
    else
      var w, f := WithUnused(vs), FirstUnused(vs);
      w[f := w[f].(id := id)]
  }

  /*********************************************************************************************
   * Edges and vertex removal
   *********************************************************************************************/

  /** The slots after GPH_addEdge(id1, id2): nothing unless both ids are found. */
  function AddedEdge(vs: seq<Vertex>, id1: int, id2: int): seq<Vertex>
  {
    var i1, i2 := IndexOfVertex(vs, id1), IndexOfVertex(vs, id2);
    if i1 == -1 || i2 == -1 then vs
    else
      var w := vs[i1 := AddNeighbor(vs[i1], id2)];
      w[i2 := AddNeighbor(w[i2], id1)]
  }

  /** The slots after GPH_removeEdge(id1, id2): nothing unless both ids are found. */
  function RemovedEdge(vs: seq<Vertex>, id1: int, id2: int): seq<Vertex>
  {
    var i1, i2 := IndexOfVertex(vs, id1), IndexOfVertex(vs, id2);
    if i1 == -1 || i2 == -1 then vs
    else
      var w := vs[i1 := RemoveNeighbor(vs[i1], id2)];
      w[i2 := RemoveNeighbor(w[i2], id1)]
  }

  /** The loop of GPH_removeVertex from its i-th step on: the vertex at idx has its id removed
      from the list of each of its first nbNeighbors neighbours, then its slot is reset. None
      when the loop would read past the list or look up a neighbour that is not a vertex. */
  function RemoveVertexFrom(vs: seq<Vertex>, idx: nat, id: int, i: nat): Option<seq<Vertex>>
    requires idx < |vs|
    decreases if vs[idx].count > i then vs[idx].count - i else 0
  {
    if i >= vs[idx].count then Some(vs[idx := Unused])
    else if i >= |vs[idx].nbhd| then None
    else
      var j := IndexOfVertex(vs, vs[idx].nbhd[i]);
      if j == -1 then None
      else RemoveVertexFrom(vs[j := RemoveNeighbor(vs[j], id)], idx, id, i + 1)
  }

  /** The slots after GPH_removeVertex(id). */
  function RemovedVertex(vs: seq<Vertex>, id: int): Option<seq<Vertex>>
  {
    var idx := IndexOfVertex(vs, id);
    if idx == -1 then Some(vs) else RemoveVertexFrom(vs, idx, id, 0)
  }

  /*********************************************************************************************
   * Consistency
   *********************************************************************************************/

  /** A slot's list is packed and duplicate-free and its counter is its number of ids; an
      unused slot has no neighbours. */
  ghost predicate VertexOk(v: Vertex)
  {
    Packed(v.nbhd) && NoDup(Nbrs(v)) && v.count == |Nbrs(v)| && (v.id == FREE ==> Nbrs(v) == [])
  }

  /** Every used slot is the one GPH_getIndice finds for its id. */
  ghost predicate UniqueIds(vs: seq<Vertex>)
  {
    forall k :: 0 <= k < |vs| && vs[k].id != FREE ==> IndexOfVertex(vs, vs[k].id) == k
  }

  /** Every neighbour is another vertex, which lists this one back. */
  ghost predicate Symmetric(vs: seq<Vertex>)
  {
    forall k, n :: 0 <= k < |vs| && n in Nbrs(vs[k]) ==>
      n != vs[k].id && IndexOfVertex(vs, n) != -1 && vs[k].id in Nbrs(vs[IndexOfVertex(vs, n)])
  }

  ghost predicate GraphOk(vs: seq<Vertex>)
  {
    (forall k :: 0 <= k < |vs| ==> VertexOk(vs[k])) && UniqueIds(vs) && Symmetric(vs)
  }

  /** a and b are joined by an edge. */
  ghost predicate Adjacent(vs: seq<Vertex>, a: int, b: int)
  {
    HasVertex(vs, a) && b in Nbrs(vs[IndexOfVertex(vs, a)])
  }

  /*********************************************************************************************
   * Properties of lookup and GPH_addVertex
   *********************************************************************************************/

  /** Lookup only depends on the ids of the slots. */
  lemma IndexOfSameIds(vs: seq<Vertex>, ws: seq<Vertex>, id: int)
    requires |vs| == |ws| && forall k :: 0 <= k < |vs| ==> vs[k].id == ws[k].id
    ensures IndexOfVertex(vs, id) == IndexOfVertex(ws, id)
  {
    var a, b := IndexOfVertex(vs, id), IndexOfVertex(ws, id);
    if a != -1 && b != -1 {
      assert ws[a].id == id && vs[b].id == id;
    }
  }

  /** Changing slots without changing their ids changes no lookup and keeps ids unique. */
  lemma SameIds(vs: seq<Vertex>, ws: seq<Vertex>)
    requires |vs| == |ws| && forall k :: 0 <= k < |vs| ==> vs[k].id == ws[k].id
    ensures forall x :: IndexOfVertex(ws, x) == IndexOfVertex(vs, x)
    ensures UniqueIds(vs) ==> UniqueIds(ws)
  {
    forall x
      ensures IndexOfVertex(ws, x) == IndexOfVertex(vs, x)
    {
      IndexOfSameIds(vs, ws, x);
    }
  }

  /** Freeing the slot of id changes no other lookup and keeps ids unique. */
  lemma FreedSlot(vs: seq<Vertex>, ws: seq<Vertex>, idx: nat, id: int)
    requires UniqueIds(vs) && idx < |vs| == |ws| && vs[idx].id == id != FREE && ws[idx].id == FREE
    requires forall k :: 0 <= k < |vs| && k != idx ==> vs[k].id == ws[k].id
    ensures forall x :: x != FREE && x != id ==> IndexOfVertex(ws, x) == IndexOfVertex(vs, x)
    ensures !HasVertex(ws, id) && UniqueIds(ws)
  {
    forall x | x != FREE && x != id
      ensures IndexOfVertex(ws, x) == IndexOfVertex(vs, x)
    {
      var a, b := IndexOfVertex(ws, x), IndexOfVertex(vs, x);
      if b != -1 {
        assert b != idx && ws[b].id == x;
      }
      if a != -1 {
        assert a != idx && vs[a].id == x;
      }
    }
    forall k | 0 <= k < |ws|
      ensures ws[k].id != id
    {
      if k != idx {
        assert vs[k].id != FREE ==> IndexOfVertex(vs, vs[k].id) == k;
      }
    }
  }

  lemma {:induction false} VertexCountUpdate(vs: seq<Vertex>, j: nat, v: Vertex)
    requires j < |vs|
    ensures VertexCount(vs[j := v]) ==
      VertexCount(vs) - (if vs[j].id != FREE then 1 else 0) + (if v.id != FREE then 1 else 0)
    decreases |vs|
  {
    var n := |vs| - 1;
    var ws := vs[j := v];
    if j < n {
      assert ws[..n] == vs[..n][j := v];
      VertexCountUpdate(vs[..n], j, v);
    } else {
      assert ws[..n] == vs[..n];
    }
  }

  lemma {:induction false} VertexCountUnused(vs: seq<Vertex>, m: nat)
    ensures VertexCount(vs + UnusedSlots(m)) == VertexCount(vs)
  {
    if m > 0 {
      var ws := vs + UnusedSlots(m);
      assert ws[..|ws| - 1] == vs + UnusedSlots(m - 1);
      assert ws[|ws| - 1] == Unused;
      VertexCountUnused(vs, m - 1);
    } else {
      assert vs + UnusedSlots(m) == vs;
    }
  }

  lemma {:induction false} VertexCountSameUse(vs: seq<Vertex>, ws: seq<Vertex>)
    requires |vs| == |ws| && forall k :: 0 <= k < |vs| ==> (vs[k].id == FREE <==> ws[k].id == FREE)
    ensures VertexCount(vs) == VertexCount(ws)
    decreases |vs|
  {
    if vs != [] {
      VertexCountSameUse(vs[..|vs| - 1], ws[..|ws| - 1]);
    }
  }

  /** GPH_getIndiceFree grows by exactly REALLOCSIZE unused slots, and only when none is free. */
  lemma WithUnusedFacts(vs: seq<Vertex>)
    ensures FirstUnused(vs) < |WithUnused(vs)| && WithUnused(vs)[FirstUnused(vs)].id == FREE
    ensures forall k :: 0 <= k < |vs| ==> WithUnused(vs)[k] == vs[k]
    ensures |WithUnused(vs)| == if IndexOfVertex(vs, FREE) == -1 then |vs| + REALLOCSIZE else |vs|
    ensures forall k :: |vs| <= k < |WithUnused(vs)| ==> WithUnused(vs)[k] == Unused
    ensures forall k :: 0 <= k < FirstUnused(vs) ==> WithUnused(vs)[k].id != FREE
  {
  }

  /** GPH_addVertex returns the existing slot of a known id; a new id takes the first unused
      slot, every other slot is left unchanged, and nbVertex grows by one. */
  lemma AddVertexFacts(vs: seq<Vertex>, id: int)
    requires id != FREE
    ensures var r, at := AddedVertex(vs, id), AddVertexAt(vs, id);
      at < |r| && r[at].id == id && IndexOfVertex(r, id) == at &&
      (HasVertex(vs, id) ==> r == vs) &&
      (!HasVertex(vs, id) ==>
        (at == FirstUnused(vs) && |vs| <= |r| &&
         (forall k :: 0 <= k < |vs| && k != at ==> r[k] == vs[k]) &&
         (forall k :: |vs| <= k < |r| && k != at ==> r[k] == Unused) &&
         VertexCount(r) == VertexCount(vs) + 1))
  {
    if !HasVertex(vs, id) {
      var w, f := WithUnused(vs), FirstUnused(vs);
      WithUnusedFacts(vs);
      var r := w[f := w[f].(id := id)];
      assert r[f].id == id;
      assert IndexOfVertex(r, id) == f by {
        forall k | 0 <= k < f
          ensures r[k].id != id
        {
          assert k < |vs| && r[k] == vs[k];
        }
      }
      VertexCountUpdate(w, f, w[f].(id := id));
      if IndexOfVertex(vs, FREE) == -1 {
        VertexCountUnused(vs, REALLOCSIZE);
      }
    }
  }

  /** GPH_addVertex is idempotent. */
  lemma AddVertexIdempotent(vs: seq<Vertex>, id: int)
    requires id != FREE
    ensures AddedVertex(AddedVertex(vs, id), id) == AddedVertex(vs, id)
    ensures AddVertexAt(AddedVertex(vs, id), id) == AddVertexAt(vs, id)
  {
    AddVertexFacts(vs, id);
  }

  /** GPH_addVertex of a new id changes no other lookup. */
  lemma AddVertexLookup(vs: seq<Vertex>, id: int, x: int)
    requires id != FREE && !HasVertex(vs, id) && x != FREE && x != id
    ensures IndexOfVertex(AddedVertex(vs, id), x) == IndexOfVertex(vs, x)
  {
    AddVertexFacts(vs, id);
    WithUnusedFacts(vs);
    var r := AddedVertex(vs, id);
    var a, b := IndexOfVertex(r, x), IndexOfVertex(vs, x);
    if b != -1 {
      assert r[b].id == x;
    }
    if a != -1 {
      assert a < |vs| && vs[a].id == x;
    }
  }

  /** GPH_addVertex of a new id leaves every slot well formed. */
  lemma AddVertexSlotsOk(vs: seq<Vertex>, id: int)
    requires GraphOk(vs) && id != FREE && !HasVertex(vs, id)
    ensures forall k :: 0 <= k < |AddedVertex(vs, id)| ==> VertexOk(AddedVertex(vs, id)[k])
  {
    AddVertexFacts(vs, id);
    var r, f := AddedVertex(vs, id), FirstUnused(vs);
    WithUnusedFacts(vs);
    assert Nbrs(r[f]) == [] by {
      if f < |vs| {
        assert vs[f].id == FREE && VertexOk(vs[f]);
      }
    }
    forall k | 0 <= k < |r|
      ensures VertexOk(r[k])
    {
      if k >= |vs| && k != f {
        assert r[k] == Unused;
      }
    }
  }

  /** GPH_addVertex keeps the graph consistent. */
  lemma AddVertexOk(vs: seq<Vertex>, id: int)
    requires GraphOk(vs) && id != FREE
    ensures GraphOk(AddedVertex(vs, id))
  {
    if !HasVertex(vs, id) {
      AddVertexFacts(vs, id);
      AddVertexSlotsOk(vs, id);
      var r, f := AddedVertex(vs, id), FirstUnused(vs);
      forall k | 0 <= k < |r| && r[k].id != FREE
        ensures IndexOfVertex(r, r[k].id) == k
      {
        if k != f {
          assert k < |vs| && r[k] == vs[k];
          AddVertexLookup(vs, id, r[k].id);
        }
      }
      forall k, n | 0 <= k < |r| && n in Nbrs(r[k])
        ensures n != r[k].id && IndexOfVertex(r, n) != -1 && r[k].id in Nbrs(r[IndexOfVertex(r, n)])
      {
        assert k < |vs| && k != f && r[k] == vs[k];
        var l := IndexOfVertex(vs, n);
        assert vs[k].id in Nbrs(vs[l]);
        assert n != id by {
          assert HasVertex(vs, n);
        }
        AddVertexLookup(vs, id, n);
        assert l != f && r[l] == vs[l];
      }
    }
  }

  /*********************************************************************************************
   * Properties of the edge operations
   *********************************************************************************************/

  /** GPH_addEdge and GPH_removeEdge do nothing unless both ids are vertices. */
  lemma EdgeNeedsBothVertices(vs: seq<Vertex>, a: int, b: int)
    requires IndexOfVertex(vs, a) == -1 || IndexOfVertex(vs, b) == -1
    ensures AddedEdge(vs, a, b) == vs && RemovedEdge(vs, a, b) == vs
  {
  }

  /** The effect of GPH_addEdge(a, b) of a missing edge on slot k. */
  lemma AddEdgeSlot(vs: seq<Vertex>, a: int, b: int, k: nat)
    requires HasVertex(vs, a) && HasVertex(vs, b) && a != b && k < |vs| && VertexOk(vs[k])
    requires k == IndexOfVertex(vs, a) ==> b !in Nbrs(vs[k])
    requires k == IndexOfVertex(vs, b) ==> a !in Nbrs(vs[k])
    ensures var r, ia, ib := AddedEdge(vs, a, b), IndexOfVertex(vs, a), IndexOfVertex(vs, b);
      |r| == |vs| && r[k].id == vs[k].id && VertexOk(r[k]) &&
      Nbrs(r[k]) == Nbrs(vs[k]) + (if k == ia then [b] else if k == ib then [a] else []) &&
      (k != ia && k != ib ==> r[k] == vs[k])
  {
    var ia, ib := IndexOfVertex(vs, a), IndexOfVertex(vs, b);
    var r := AddedEdge(vs, a, b);
    if k == ia {
      assert r[k] == AddNeighbor(vs[k], b);
      AddedIds(vs[k].nbhd, b);
      AddedNoDup(vs[k].nbhd, b);
    } else if k == ib {
      assert r[k] == AddNeighbor(vs[k], a);
      AddedIds(vs[k].nbhd, a);
      AddedNoDup(vs[k].nbhd, a);
    }
  }

  /** GPH_addEdge of a missing edge changes the lists of its two ends only, by appending the
      other end, and no id. */
  lemma AddEdgeFrame(vs: seq<Vertex>, a: int, b: int)
    requires GraphOk(vs) && HasVertex(vs, a) && HasVertex(vs, b) && a != b && !Adjacent(vs, a, b)
    ensures var r, ia, ib := AddedEdge(vs, a, b), IndexOfVertex(vs, a), IndexOfVertex(vs, b);
      |r| == |vs| && (forall k :: 0 <= k < |vs| ==> r[k].id == vs[k].id && VertexOk(r[k])) &&
      (forall k :: 0 <= k < |vs| ==>
        Nbrs(r[k]) == Nbrs(vs[k]) + (if k == ia then [b] else if k == ib then [a] else [])) &&
      (forall k :: 0 <= k < |vs| && k != ia && k != ib ==> r[k] == vs[k])
  {
    var ia, ib := IndexOfVertex(vs, a), IndexOfVertex(vs, b);
    var r := AddedEdge(vs, a, b);
    assert b !in Nbrs(vs[ia]);
    assert a !in Nbrs(vs[ib]);
    forall k | 0 <= k < |vs|
      ensures r[k].id == vs[k].id && VertexOk(r[k])
      ensures Nbrs(r[k]) == Nbrs(vs[k]) + (if k == ia then [b] else if k == ib then [a] else [])
      ensures k != ia && k != ib ==> r[k] == vs[k]
    {
      AddEdgeSlot(vs, a, b, k);
    }
  }

  /** Adding a missing edge between two distinct vertices keeps the graph consistent. */
  lemma AddEdgeOk(vs: seq<Vertex>, a: int, b: int)
    requires GraphOk(vs) && HasVertex(vs, a) && HasVertex(vs, b) && a != b && !Adjacent(vs, a, b)
    ensures GraphOk(AddedEdge(vs, a, b))
  {
    var ia, ib := IndexOfVertex(vs, a), IndexOfVertex(vs, b);
    var r := AddedEdge(vs, a, b);
    AddEdgeFrame(vs, a, b);
    SameIds(vs, r);
    forall k, n | 0 <= k < |r| && n in Nbrs(r[k])
      ensures n != r[k].id && IndexOfVertex(r, n) != -1 && r[k].id in Nbrs(r[IndexOfVertex(r, n)])
    {
      AddEdgeSymmetricAt(vs, a, b, k, n);
    }
  }

  /** After adding a missing edge, each neighbour n of slot k lists that slot's id back. */
  lemma AddEdgeSymmetricAt(vs: seq<Vertex>, a: int, b: int, k: nat, n: int)
    requires GraphOk(vs) && HasVertex(vs, a) && HasVertex(vs, b) && a != b && !Adjacent(vs, a, b)
    requires k < |vs| && n in Nbrs(AddedEdge(vs, a, b)[k])
    ensures var r := AddedEdge(vs, a, b);
      n != r[k].id && IndexOfVertex(r, n) != -1 && r[k].id in Nbrs(r[IndexOfVertex(r, n)])
  {
    var ia, ib := IndexOfVertex(vs, a), IndexOfVertex(vs, b);
    var r := AddedEdge(vs, a, b);
    AddEdgeFrame(vs, a, b);
    SameIds(vs, r);
    if !(k == ia && n == b) && !(k == ib && n == a) {
      assert n in Nbrs(vs[k]);
      var l := IndexOfVertex(vs, n);
      assert vs[k].id in Nbrs(vs[l]);
    }
  }

  /** After GPH_addEdge(a, b) of a missing edge, a and b are adjacent both ways. */
  lemma AddEdgeLinks(vs: seq<Vertex>, a: int, b: int)
    requires GraphOk(vs) && HasVertex(vs, a) && HasVertex(vs, b) && a != b && !Adjacent(vs, a, b)
    ensures Adjacent(AddedEdge(vs, a, b), a, b) && Adjacent(AddedEdge(vs, a, b), b, a)
  {
    var ia, ib := IndexOfVertex(vs, a), IndexOfVertex(vs, b);
    var r := AddedEdge(vs, a, b);
    AddEdgeFrame(vs, a, b);
    IndexOfSameIds(vs, r, a);
    IndexOfSameIds(vs, r, b);
    assert Nbrs(r[ia]) == Nbrs(vs[ia]) + [b];
    assert Nbrs(r[ib]) == Nbrs(vs[ib]) + [a];
  }

  /** The effect of GPH_removeEdge(a, b) of an existing edge on slot k. */
  lemma RemoveEdgeSlot(vs: seq<Vertex>, a: int, b: int, k: nat)
    requires HasVertex(vs, a) && HasVertex(vs, b) && a != b && k < |vs| && VertexOk(vs[k])
    ensures var r, ia, ib := RemovedEdge(vs, a, b), IndexOfVertex(vs, a), IndexOfVertex(vs, b);
      |r| == |vs| && r[k].id == vs[k].id &&
      Nbrs(r[k]) == (if k == ia then DeleteFirst(Nbrs(vs[k]), b)
        else if k == ib then DeleteFirst(Nbrs(vs[k]), a) else Nbrs(vs[k])) &&
      (k == ia ==> (b in Nbrs(vs[k]) ==> VertexOk(r[k])) && (forall y :: y in Nbrs(r[k]) <==> y in Nbrs(vs[k]) && y != b)) &&
      (k == ib ==> (a in Nbrs(vs[k]) ==> VertexOk(r[k])) && (forall y :: y in Nbrs(r[k]) <==> y in Nbrs(vs[k]) && y != a)) &&
      (k != ia && k != ib ==> r[k] == vs[k])
  {
    var ia, ib := IndexOfVertex(vs, a), IndexOfVertex(vs, b);
    var r := RemovedEdge(vs, a, b);
    if k == ia {
      assert r[k] == RemoveNeighbor(vs[k], b);
      RemovedIds(vs[k].nbhd, b);
      DeleteFirstFacts(Nbrs(vs[k]), b);
    } else if k == ib {
      assert r[k] == RemoveNeighbor(vs[k], a);
      RemovedIds(vs[k].nbhd, a);
      DeleteFirstFacts(Nbrs(vs[k]), a);
    }
  }

  /** GPH_removeEdge of an existing edge deletes each end from the other's list, changes no
      other list and no id. */
  lemma RemoveEdgeFrame(vs: seq<Vertex>, a: int, b: int)
    requires GraphOk(vs) && Adjacent(vs, a, b)
    ensures var r, ia, ib := RemovedEdge(vs, a, b), IndexOfVertex(vs, a), IndexOfVertex(vs, b);
      |r| == |vs| && (forall k :: 0 <= k < |vs| ==> r[k].id == vs[k].id && VertexOk(r[k])) &&
      Nbrs(r[ia]) == DeleteFirst(Nbrs(vs[ia]), b) && Nbrs(r[ib]) == DeleteFirst(Nbrs(vs[ib]), a) &&
      (forall k :: 0 <= k < |vs| && k != ia && k != ib ==> r[k] == vs[k])
  {
    var ia := IndexOfVertex(vs, a);
    assert b in Nbrs(vs[ia]);
    var ib := IndexOfVertex(vs, b);
    assert a in Nbrs(vs[ib]) && a != b;
    var r := RemovedEdge(vs, a, b);
    forall k | 0 <= k < |vs|
      ensures r[k].id == vs[k].id && VertexOk(r[k])
      ensures k != ia && k != ib ==> r[k] == vs[k]
    {
      assert VertexOk(vs[k]);
      RemoveEdgeSlot(vs, a, b, k);
    }
    assert VertexOk(vs[ia]) && VertexOk(vs[ib]);
    RemoveEdgeSlot(vs, a, b, ia);
    RemoveEdgeSlot(vs, a, b, ib);
  }

  /** Removing an existing edge keeps the graph consistent. */
  lemma RemoveEdgeOk(vs: seq<Vertex>, a: int, b: int)
    requires GraphOk(vs) && Adjacent(vs, a, b)
    ensures GraphOk(RemovedEdge(vs, a, b))
  {
    var ia := IndexOfVertex(vs, a);
    assert b in Nbrs(vs[ia]);
    var ib := IndexOfVertex(vs, b);
    assert a in Nbrs(vs[ib]) && a != b;
    var r := RemovedEdge(vs, a, b);
    RemoveEdgeFrame(vs, a, b);
    SameIds(vs, r);
    forall k, n | 0 <= k < |r| && n in Nbrs(r[k])
      ensures n != r[k].id && IndexOfVertex(r, n) != -1 && r[k].id in Nbrs(r[IndexOfVertex(r, n)])
    {
      assert VertexOk(vs[k]);
      RemoveEdgeSlot(vs, a, b, k);
      assert n in Nbrs(vs[k]);
      var l := IndexOfVertex(vs, n);
      assert vs[k].id in Nbrs(vs[l]);
      assert VertexOk(vs[l]);
      RemoveEdgeSlot(vs, a, b, l);
    }
  }

  /** After GPH_removeEdge(a, b) of an existing edge, a and b are no longer adjacent. */
  lemma RemoveEdgeUnlinks(vs: seq<Vertex>, a: int, b: int)
    requires GraphOk(vs) && Adjacent(vs, a, b)
    ensures !Adjacent(RemovedEdge(vs, a, b), a, b) && !Adjacent(RemovedEdge(vs, a, b), b, a)
  {
    var ia := IndexOfVertex(vs, a);
    assert b in Nbrs(vs[ia]) && VertexOk(vs[ia]);
    var ib := IndexOfVertex(vs, b);
    assert a in Nbrs(vs[ib]) && a != b && VertexOk(vs[ib]);
    RemoveEdgeDrops(vs, a, b, ia, b);
    RemoveEdgeDrops(vs, a, b, ib, a);
  }

  /** After GPH_removeEdge(a, b) between two vertices, the list of slot k, which is a's or b's,
      no longer holds the other end y. */
  lemma RemoveEdgeDrops(vs: seq<Vertex>, a: int, b: int, k: nat, y: int)
    requires HasVertex(vs, a) && HasVertex(vs, b) && a != b && k < |vs| && VertexOk(vs[k])
    requires (k == IndexOfVertex(vs, a) && y == b) || (k == IndexOfVertex(vs, b) && y == a)
    ensures var r := RemovedEdge(vs, a, b); IndexOfVertex(r, vs[k].id) == k && y !in Nbrs(r[k])
  {
    var r := RemovedEdge(vs, a, b);
    RemoveEdgeSlot(vs, a, b, k);
    IndexOfSameIds(vs, r, vs[k].id);
  }

  /** On a list without duplicates, DeleteFirst removes exactly one element and nothing else. */
  lemma {:induction false} DeleteFirstFacts(xs: seq<int>, x: int)
    requires NoDup(xs)
    ensures NoDup(DeleteFirst(xs, x))
    ensures forall y :: y in DeleteFirst(xs, x) <==> y in xs && y != x
    ensures |DeleteFirst(xs, x)| == if x in xs then |xs| - 1 else |xs|
  {
    if xs != [] {
      assert NoDup(xs[1..]);
      DeleteFirstFacts(xs[1..], x);
      if xs[0] != x {
        assert xs[0] !in xs[1..];
      }
    }
  }

  /** The neighbour counter drifts: adding an edge that is already there leaves both lists as
      they were but increments both counters, so the graph is no longer consistent. */
  lemma AddEdgeTwiceDrifts(vs: seq<Vertex>, a: int, b: int)
    requires GraphOk(vs) && Adjacent(vs, a, b)
    ensures var r, ia := AddedEdge(vs, a, b), IndexOfVertex(vs, a);
      Nbrs(r[ia]) == Nbrs(vs[ia]) && r[ia].count == |Nbrs(r[ia])| + 1 && !GraphOk(r)
  {
    var ia := IndexOfVertex(vs, a);
    var ib := IndexOfVertex(vs, b);
    assert a in Nbrs(vs[ib]) && VertexOk(vs[ia]) && VertexOk(vs[ib]) && ia != ib;
    assert IndexOf(vs[ia].nbhd, b) != -1 && IndexOf(vs[ib].nbhd, a) != -1;
    var r := AddedEdge(vs, a, b);
    assert r[ia] == AddNeighbor(vs[ia], b);
    assert !VertexOk(r[ia]);
  }

  /** The neighbour counter drifts the other way: removing an absent edge between two vertices
      leaves both lists as they were but decrements both counters. */
  lemma RemoveAbsentEdgeDrifts(vs: seq<Vertex>, a: int, b: int)
    requires GraphOk(vs) && HasVertex(vs, a) && HasVertex(vs, b) && a != b && !Adjacent(vs, a, b)
    ensures var r, ia := RemovedEdge(vs, a, b), IndexOfVertex(vs, a);
      Nbrs(r[ia]) == Nbrs(vs[ia]) && r[ia].count == |Nbrs(r[ia])| - 1 && !GraphOk(r)
  {
    var ia, ib := IndexOfVertex(vs, a), IndexOfVertex(vs, b);
    assert VertexOk(vs[ia]) && VertexOk(vs[ib]) && ia != ib;
    RemovedAbsent(vs[ia].nbhd, b);
    var r := RemovedEdge(vs, a, b);
    assert r[ia] == RemoveNeighbor(vs[ia], b);
    assert !VertexOk(r[ia]);
  }

  /*********************************************************************************************
   * Properties of GPH_removeVertex
   *********************************************************************************************/

  /** The slots once GPH_removeVertex has removed the vertex at idx from a consistent graph. */
  ghost function AfterRemoval(vs: seq<Vertex>, idx: nat, id: int): seq<Vertex>
    requires idx < |vs|
  {
    seq(|vs|, k requires 0 <= k < |vs| =>
      if k == idx then Unused
      else if vs[k].id in Nbrs(vs[idx]) then RemoveNeighbor(vs[k], id)
      else vs[k])
  }

  /** The state of the loop of GPH_removeVertex after i steps. */
  ghost predicate RemovalLoop(vs: seq<Vertex>, ws: seq<Vertex>, idx: nat, id: int, i: nat)
    requires idx < |vs|
  {
    |ws| == |vs| && i <= vs[idx].count && i <= |vs[idx].nbhd| && ws[idx] == vs[idx] &&
    forall k :: 0 <= k < |vs| && k != idx ==>
      ws[k] == if vs[k].id in vs[idx].nbhd[..i] then RemoveNeighbor(vs[k], id) else vs[k]
  }

  lemma RemovalLoopSteps(vs: seq<Vertex>, ws: seq<Vertex>, idx: nat, id: int, i: nat)
    requires GraphOk(vs) && idx < |vs| && vs[idx].id == id && id != FREE
    requires RemovalLoop(vs, ws, idx, id, i)
    ensures RemoveVertexFrom(ws, idx, id, i) == Some(AfterRemoval(vs, idx, id))
  {
    var w, j := ws, i;
    while j < vs[idx].count
      invariant RemovalLoop(vs, w, idx, id, j)
      invariant RemoveVertexFrom(ws, idx, id, i) == RemoveVertexFrom(w, idx, id, j)
      decreases vs[idx].count - j
    {
      w := RemovalLoopNext(vs, w, idx, id, j);
      j := j + 1;
    }
    RemovalLoopEnd(vs, w, idx, id, j);
  }

  /** Once every neighbour is handled, resetting the slot gives AfterRemoval. */
  lemma RemovalLoopEnd(vs: seq<Vertex>, ws: seq<Vertex>, idx: nat, id: int, i: nat)
    requires GraphOk(vs) && idx < |vs| && vs[idx].id == id && id != FREE
    requires RemovalLoop(vs, ws, idx, id, i) && i >= vs[idx].count
    ensures RemoveVertexFrom(ws, idx, id, i) == Some(AfterRemoval(vs, idx, id))
  {
    var v := vs[idx];
    assert VertexOk(v);
    CountIdsOfPacked(v.nbhd);
    assert v.nbhd[..i] == Nbrs(v);
    assert ws[idx := Unused] == AfterRemoval(vs, idx, id);
  }

  /** One step of the loop of GPH_removeVertex: removing id from the list of the i-th neighbour
      extends the loop state by one. */
  lemma RemovalLoopNext(vs: seq<Vertex>, ws: seq<Vertex>, idx: nat, id: int, i: nat) returns (ws': seq<Vertex>)
    requires GraphOk(vs) && idx < |vs| && vs[idx].id == id && id != FREE
    requires RemovalLoop(vs, ws, idx, id, i) && i < vs[idx].count
    ensures RemovalLoop(vs, ws', idx, id, i + 1)
    ensures RemoveVertexFrom(ws, idx, id, i) == RemoveVertexFrom(ws', idx, id, i + 1)
  {
    var v := vs[idx];
    var j := RemovalNeighbour(vs, idx, id, i);
    var n := v.nbhd[i];
    IndexOfSameIds(vs, ws, n);
    assert ws[j] == vs[j];
    ws' := ws[j := RemoveNeighbor(vs[j], id)];
    RemovalLoopExtend(vs, ws, idx, id, i, j);
  }

  /** Removing id from the list of slot j, the i-th neighbour, extends the loop state by one. */
  lemma RemovalLoopExtend(vs: seq<Vertex>, ws: seq<Vertex>, idx: nat, id: int, i: nat, j: int)
    requires UniqueIds(vs) && idx < |vs| && RemovalLoop(vs, ws, idx, id, i) && i < vs[idx].count
    requires i < |vs[idx].nbhd| && 0 <= j < |vs| && j != idx && vs[j].id == vs[idx].nbhd[i] != FREE
    requires vs[idx].nbhd[..i + 1] == vs[idx].nbhd[..i] + [vs[idx].nbhd[i]]
    ensures RemovalLoop(vs, ws[j := RemoveNeighbor(vs[j], id)], idx, id, i + 1)
  {
    var v := vs[idx];
    var ws' := ws[j := RemoveNeighbor(vs[j], id)];
    forall k | 0 <= k < |vs| && k != idx
      ensures ws'[k] == if vs[k].id in v.nbhd[..i + 1] then RemoveNeighbor(vs[k], id) else vs[k]
    {
      assert vs[k].id != FREE ==> IndexOfVertex(vs, vs[k].id) == k;
    }
  }

  /** The i-th neighbour the loop of GPH_removeVertex reads is a vertex of another slot j, which
      the earlier steps did not touch. */
  lemma RemovalNeighbour(vs: seq<Vertex>, idx: nat, id: int, i: nat) returns (j: int)
    requires GraphOk(vs) && idx < |vs| && vs[idx].id == id && id != FREE && i < vs[idx].count
    ensures i < |vs[idx].nbhd| && j == IndexOfVertex(vs, vs[idx].nbhd[i])
    ensures 0 <= j < |vs| && j != idx && vs[j].id == vs[idx].nbhd[i] != FREE
    ensures vs[idx].nbhd[i] !in vs[idx].nbhd[..i]
    ensures vs[idx].nbhd[..i + 1] == vs[idx].nbhd[..i] + [vs[idx].nbhd[i]]
  {
    var v := vs[idx];
    assert VertexOk(v);
    CountIdsOfPacked(v.nbhd);
    var n := v.nbhd[i];
    assert n == Nbrs(v)[i] && n in Nbrs(v);
    j := IndexOfVertex(vs, n);
    assert j != -1 && j != idx && vs[j].id == n;
    assert n !in v.nbhd[..i] by {
      assert NoDup(Nbrs(v));
      assert v.nbhd[..i] == Nbrs(v)[..i];
    }
  }

  /** The effect of removing the vertex at idx on another slot k. */
  lemma RemovalSlot(vs: seq<Vertex>, idx: nat, id: int, k: nat)
    requires GraphOk(vs) && idx < |vs| && vs[idx].id == id && id != FREE && k < |vs| && k != idx
    ensures var r := AfterRemoval(vs, idx, id);
      r[k].id == vs[k].id && vs[k].id != id && VertexOk(r[k]) &&
      Nbrs(r[k]) == DeleteFirst(Nbrs(vs[k]), id) &&
      (forall y :: y in Nbrs(r[k]) <==> y in Nbrs(vs[k]) && y != id)
  {
    var r := AfterRemoval(vs, idx, id);
    assert VertexOk(vs[k]);
    assert vs[k].id != FREE ==> IndexOfVertex(vs, vs[k].id) == k;
    if vs[k].id in Nbrs(vs[idx]) {
      assert id in Nbrs(vs[k]);
    }
    if id in Nbrs(vs[k]) {
      assert vs[k].id in Nbrs(vs[IndexOfVertex(vs, id)]);
    }
    RemovedIds(vs[k].nbhd, id);
    DeleteFirstFacts(Nbrs(vs[k]), id);
    if id !in Nbrs(vs[k]) {
      DeleteFirstAbsent(Nbrs(vs[k]), id);
    }
  }

  lemma RemovalOk(vs: seq<Vertex>, idx: nat, id: int)
    requires GraphOk(vs) && idx < |vs| && vs[idx].id == id && id != FREE
    ensures var r := AfterRemoval(vs, idx, id);
      GraphOk(r) && !HasVertex(r, id) &&
      (forall k :: 0 <= k < |vs| ==> r[k].id == (if k == idx then FREE else vs[k].id)) &&
      (forall k :: 0 <= k < |vs| && k != idx ==> Nbrs(r[k]) == DeleteFirst(Nbrs(vs[k]), id))
  {
    var r := AfterRemoval(vs, idx, id);
    forall k | 0 <= k < |vs| && k != idx
      ensures r[k].id == vs[k].id && vs[k].id != id && VertexOk(r[k])
      ensures Nbrs(r[k]) == DeleteFirst(Nbrs(vs[k]), id)
      ensures forall y :: y in Nbrs(r[k]) <==> y in Nbrs(vs[k]) && y != id
    {
      RemovalSlot(vs, idx, id, k);
    }
    assert VertexOk(r[idx]);
    FreedSlot(vs, r, idx, id);
    forall k, n | 0 <= k < |r| && n in Nbrs(r[k])
      ensures n != r[k].id && IndexOfVertex(r, n) != -1 && r[k].id in Nbrs(r[IndexOfVertex(r, n)])
    {
      assert k != idx && n in Nbrs(vs[k]) && n != id;
      var l := IndexOfVertex(vs, n);
      assert vs[k].id in Nbrs(vs[l]) && l != idx;
    }
  }

  /** GPH_removeVertex of an id that is not a vertex changes nothing. */
  lemma RemoveAbsentVertex(vs: seq<Vertex>, id: int)
    requires IndexOfVertex(vs, id) == -1
    ensures RemovedVertex(vs, id) == Some(vs)
  {
  }

  /** GPH_removeVertex on a consistent graph is defined: its loop stays inside the list and
      finds every neighbour it reads. */
  lemma RemoveVertexDefined(vs: seq<Vertex>, id: int)
    requires GraphOk(vs) && HasVertex(vs, id)
    ensures RemovedVertex(vs, id) == Some(AfterRemoval(vs, IndexOfVertex(vs, id), id))
  {
    var idx := IndexOfVertex(vs, id);
    assert RemovalLoop(vs, vs, idx, id, 0);
    RemovalLoopSteps(vs, vs, idx, id, 0);
  }

  /** GPH_removeVertex lowers GPH_nbVertex by one. */
  lemma RemoveVertexCount(vs: seq<Vertex>, id: int)
    requires GraphOk(vs) && HasVertex(vs, id)
    ensures RemovedVertex(vs, id).Some? && VertexCount(RemovedVertex(vs, id).value) == VertexCount(vs) - 1
  {
    var idx := IndexOfVertex(vs, id);
    RemoveVertexDefined(vs, id);
    AfterRemovalIds(vs, idx, id);
    VertexCountUpdate(vs, idx, Unused);
    VertexCountSameUse(vs[idx := Unused], AfterRemoval(vs, idx, id));
  }

  /** Removing the vertex at idx frees its slot and keeps every other id. */
  lemma AfterRemovalIds(vs: seq<Vertex>, idx: nat, id: int)
    requires idx < |vs|
    ensures |AfterRemoval(vs, idx, id)| == |vs|
    ensures forall k :: 0 <= k < |vs| ==> AfterRemoval(vs, idx, id)[k].id == vs[idx := Unused][k].id
  {
  }

  /** GPH_removeVertex on a consistent graph keeps it consistent: the id is no longer a vertex,
      its slot is reset, it leaves the list of each of its neighbours, and no other list or id
      changes. */
  lemma RemoveVertexOk(vs: seq<Vertex>, id: int)
    requires GraphOk(vs) && HasVertex(vs, id)
    ensures RemovedVertex(vs, id).Some?
    ensures var r, idx := RemovedVertex(vs, id).value, IndexOfVertex(vs, id);
      GraphOk(r) && !HasVertex(r, id) && |r| == |vs| && r[idx] == Unused &&
      (forall k :: 0 <= k < |vs| && k != idx ==> r[k].id == vs[k].id) &&
      (forall k :: 0 <= k < |vs| && k != idx ==> Nbrs(r[k]) == DeleteFirst(Nbrs(vs[k]), id))
  {
    RemoveVertexDefined(vs, id);
    RemovalOk(vs, IndexOfVertex(vs, id), id);
  }

  /*********************************************************************************************
   * Growth of the edge relation under additions
   *********************************************************************************************/

  /** Every neighbour list is packed. */
  ghost predicate ListsPacked(vs: seq<Vertex>)
  {
    forall k :: 0 <= k < |vs| ==> Packed(vs[k].nbhd)
  }

  /** ws keeps every vertex and every edge of vs, and its lists are packed. */
  ghost predicate Grows(vs: seq<Vertex>, ws: seq<Vertex>)
  {
    ListsPacked(ws) &&
    (forall x :: HasVertex(vs, x) ==> HasVertex(ws, x)) &&
    (forall x, y :: Adjacent(vs, x, y) ==> Adjacent(ws, x, y))
  }

  lemma GrowsTrans(us: seq<Vertex>, vs: seq<Vertex>, ws: seq<Vertex>)
    requires Grows(us, vs) && Grows(vs, ws)
    ensures Grows(us, ws)
  {
  }

  /** GPH_addVertex loses no vertex and no edge, and afterwards id is a vertex. */
  lemma AddVertexGrows(vs: seq<Vertex>, id: int)
    requires ListsPacked(vs) && id != FREE
    ensures Grows(vs, AddedVertex(vs, id)) && HasVertex(AddedVertex(vs, id), id)
  {
    AddVertexFacts(vs, id);
    if !HasVertex(vs, id) {
      var r, f := AddedVertex(vs, id), FirstUnused(vs);
      WithUnusedFacts(vs);
      forall k | 0 <= k < |r|
        ensures Packed(r[k].nbhd)
      {
        if k < |vs| {
          assert r[k].nbhd == vs[k].nbhd;
        }
      }
      forall x | HasVertex(vs, x)
        ensures HasVertex(r, x)
      {
        AddVertexLookup(vs, id, x);
      }
      forall x, y | Adjacent(vs, x, y)
        ensures Adjacent(r, x, y)
      {
        AddVertexLookup(vs, id, x);
        var k := IndexOfVertex(vs, x);
        assert vs[k].id != FREE;
        assert k != f && r[k] == vs[k];
      }
    }
  }

  /** The effect of GPH_addEdge on one slot: its list stays packed, keeps its ids, and the
      slots of the two ends gain the other end. */
  lemma AddEdgeSlotGrows(vs: seq<Vertex>, a: int, b: int, k: nat)
    requires ListsPacked(vs) && a != FREE && b != FREE && k < |vs|
    ensures var r := AddedEdge(vs, a, b);
      |r| == |vs| && r[k].id == vs[k].id && Packed(r[k].nbhd) &&
      (forall y :: y in Nbrs(vs[k]) ==> y in Nbrs(r[k])) &&
      (HasVertex(vs, a) && HasVertex(vs, b) ==>
        (k == IndexOfVertex(vs, a) ==> b in Nbrs(r[k])) &&
        (k == IndexOfVertex(vs, b) ==> a in Nbrs(r[k])))
  {
    var i1, i2 := IndexOfVertex(vs, a), IndexOfVertex(vs, b);
    if i1 != -1 && i2 != -1 {
      var s := vs[k].nbhd;
      if k == i1 {
        AddedIds(s, b);
        if k == i2 {
          AddedIds(Added(s, b), a);
        }
      } else if k == i2 {
        AddedIds(s, a);
      }
    }
  }

  /** GPH_addEdge loses no vertex and no edge; when both ends are vertices they are adjacent
      both ways afterwards. */
  lemma AddEdgeGrows(vs: seq<Vertex>, a: int, b: int)
    requires ListsPacked(vs) && a != FREE && b != FREE
    ensures Grows(vs, AddedEdge(vs, a, b))
    ensures HasVertex(vs, a) && HasVertex(vs, b) ==>
      Adjacent(AddedEdge(vs, a, b), a, b) && Adjacent(AddedEdge(vs, a, b), b, a)
  {
    var r := AddedEdge(vs, a, b);
    forall k | 0 <= k < |vs|
      ensures r[k].id == vs[k].id && Packed(r[k].nbhd)
    {
      AddEdgeSlotGrows(vs, a, b, k);
    }
    SameIds(vs, r);
    forall x, y | Adjacent(vs, x, y)
      ensures Adjacent(r, x, y)
    {
      AddEdgeSlotGrows(vs, a, b, IndexOfVertex(vs, x));
    }
    if HasVertex(vs, a) && HasVertex(vs, b) {
      AddEdgeSlotGrows(vs, a, b, IndexOfVertex(vs, a));
      AddEdgeSlotGrows(vs, a, b, IndexOfVertex(vs, b));
    }
  }

  /** Every unused slot has an empty list, as GPH_initVertex leaves it. */
  ghost predicate FreeEmpty(vs: seq<Vertex>)
  {
    forall k :: 0 <= k < |vs| && vs[k].id == FREE ==> Nbrs(vs[k]) == []
  }

  /** GPH_addVertex adds no vertex but id and, when unused slots are empty, no edge. */
  lemma AddVertexBound(vs: seq<Vertex>, id: int)
    requires id != FREE
    ensures var r := AddedVertex(vs, id);
      (forall x :: HasVertex(r, x) ==> HasVertex(vs, x) || x == id) &&
      (FreeEmpty(vs) ==> FreeEmpty(r) && forall x, y :: Adjacent(r, x, y) ==> Adjacent(vs, x, y))
  {
    if !HasVertex(vs, id) {
      var r, f := AddedVertex(vs, id), FirstUnused(vs);
      AddVertexFacts(vs, id);
      WithUnusedFacts(vs);
      forall x | HasVertex(r, x) && x != id
        ensures HasVertex(vs, x)
      {
        AddVertexLookup(vs, id, x);
      }
      if FreeEmpty(vs) {
        assert Nbrs(r[f]) == [] by {
          if f < |vs| {
            assert vs[f].id == FREE;
          }
        }
        forall x, y | Adjacent(r, x, y)
          ensures Adjacent(vs, x, y)
        {
          if x != id {
            AddVertexLookup(vs, id, x);
            var k := IndexOfVertex(vs, x);
            assert k != f && r[k] == vs[k];
          }
        }
      }
    }
  }

  /** GPH_addEdge(a, b) on one slot: the list gains at most the other end, on the slots of a
      and b only. */
  lemma AddEdgeSlotBound(vs: seq<Vertex>, a: int, b: int, k: nat, y: int)
    requires ListsPacked(vs) && a != FREE && b != FREE && k < |vs|
    requires y in Nbrs(AddedEdge(vs, a, b)[k])
    ensures y in Nbrs(vs[k]) ||
      (k == IndexOfVertex(vs, a) && y == b) || (k == IndexOfVertex(vs, b) && y == a)
  {
    var i1, i2 := IndexOfVertex(vs, a), IndexOfVertex(vs, b);
    if i1 != -1 && i2 != -1 {
      var s := vs[k].nbhd;
      if k == i1 {
        AddedIds(s, b);
        if k == i2 {
          AddedIds(Added(s, b), a);
        }
      } else if k == i2 {
        AddedIds(s, a);
      }
    }
  }

  /** GPH_addEdge(a, b) keeps the vertices and adds no edge but a-b and b-a. */
  lemma AddEdgeBound(vs: seq<Vertex>, a: int, b: int)
    requires ListsPacked(vs) && a != FREE && b != FREE
    ensures var r := AddedEdge(vs, a, b);
      (forall x :: HasVertex(r, x) <==> HasVertex(vs, x)) &&
      (FreeEmpty(vs) ==> FreeEmpty(r)) &&
      forall x, y :: Adjacent(r, x, y) ==> Adjacent(vs, x, y) || (x == a && y == b) || (x == b && y == a)
  {
    var r := AddedEdge(vs, a, b);
    forall k | 0 <= k < |vs|
      ensures r[k].id == vs[k].id && Packed(r[k].nbhd)
    {
      AddEdgeSlotGrows(vs, a, b, k);
    }
    SameIds(vs, r);
    forall x, y | Adjacent(r, x, y)
      ensures Adjacent(vs, x, y) || (x == a && y == b) || (x == b && y == a)
    {
      AddEdgeSlotBound(vs, a, b, IndexOfVertex(vs, x), y);
    }
    if FreeEmpty(vs) {
      forall k | 0 <= k < |r| && r[k].id == FREE
        ensures Nbrs(r[k]) == []
      {
        assert k != IndexOfVertex(vs, a) && k != IndexOfVertex(vs, b);
        assert r[k] == vs[k];
      }
    }
  }

  /*********************************************************************************************
   * The graph object and its loops
   *********************************************************************************************/

  class Graph {
    var vertices: seq<Vertex>

    /** GPH_create: no slots. */
    constructor ()
      ensures vertices == []
    {
      vertices := [];
    }

    /** GPH_addAlloc: append n unused slots. */
    method AddAlloc(n: nat)
      modifies this
      ensures vertices == old(vertices) + UnusedSlots(n)
    {
      for i := 0 to n
        invariant vertices == old(vertices) + UnusedSlots(i)
      {
        vertices := vertices + [Unused];
        assert UnusedSlots(i + 1) == UnusedSlots(i) + [Unused];
      }
    }

    /** GPH_nbVertex: count the used slots. */
    method NbVertex() returns (cpt: nat)
      ensures cpt == VertexCount(vertices)
    {
      cpt := 0;
      for i := 0 to |vertices|
        invariant cpt == VertexCount(vertices[..i])
      {
        assert vertices[..i + 1][..i] == vertices[..i];
        if vertices[i].id != FREE {
          cpt := cpt + 1;
        }
      }
      assert vertices[..|vertices|] == vertices;
    }

    /** GPH_getIndice: scan every slot for id. */
    method GetIndice(id: int) returns (r: int)
      ensures -1 <= r < |vertices|
      ensures r >= 0 ==> vertices[r].id == id
      ensures r == -1 <==> forall k :: 0 <= k < |vertices| ==> vertices[k].id != id
      ensures r == IndexOfVertex(vertices, id)
    {
      for i := 0 to |vertices|
        invariant forall k :: 0 <= k < i ==> vertices[k].id != id
      {
        if vertices[i].id == id {
          return i;
        }
      }
      return -1;
    }

    /** GPH_getIndiceFree: the first unused slot, after growing when none is unused. */
    method GetIndiceFree() returns (i: nat)
      modifies this
      ensures i == FirstUnused(old(vertices)) && vertices == WithUnused(old(vertices))
      ensures i < |vertices| && vertices[i].id == FREE
    {
      var r := GetIndice(FREE);
      if r != -1 {
        return r;
      }
      i := |vertices|;
      AddAlloc(REALLOCSIZE);
    }

    /** GPH_checkVertex: 1 when some slot holds id, 0 otherwise. */
    method CheckVertex(id: int) returns (b: int)
      ensures b == 1 <==> exists k :: 0 <= k < |vertices| && vertices[k].id == id
      ensures b == 0 <==> IndexOfVertex(vertices, id) == -1
    {
      for i := 0 to |vertices|
        invariant forall k :: 0 <= k < i ==> vertices[k].id != id
      {
        if vertices[i].id == id {
          return 1;
        }
      }
      return 0;
    }

    /** GPH_checkBond: whether id2 is in the list of id1, which must be a vertex. */
    method CheckBond(id1: int, id2: int) returns (b: int)
      requires IndexOfVertex(vertices, id1) != -1
      ensures b == 1 <==> id2 in Nbrs(vertices[IndexOfVertex(vertices, id1)])
      ensures b == 0 || b == 1
    {
      var i := GetIndice(id1);
      var l := new IdList();
      l.elts := vertices[i].nbhd;
      b := l.Check(id2);
    }

    /** GPH_addVertex. */
    method AddVertex(id: int) returns (indice: nat)
      modifies this
      ensures vertices == AddedVertex(old(vertices), id) && indice == AddVertexAt(old(vertices), id)
    {
      var i := GetIndice(id);
      if i != -1 {
        return i;
      }
      indice := GetIndiceFree();
      vertices := vertices[indice := vertices[indice].(id := id)];
    }

    /** GPH_addNeighbor applied to the vertex in slot k. */
    method AddNeighborAt(k: nat, id: int)
      requires k < |vertices|
      modifies this
      ensures vertices == old(vertices)[k := AddNeighbor(old(vertices)[k], id)]
    {
      vertices := vertices[k := AddNeighbor(vertices[k], id)];
    }

    /** GPH_addEdge. */
    method AddEdge(id1: int, id2: int)
      modifies this
      ensures vertices == AddedEdge(old(vertices), id1, id2)
    {
      var i1 := GetIndice(id1);
      var i2 := GetIndice(id2);
      if i1 != -1 && i2 != -1 {
        vertices := vertices[i1 := AddNeighbor(vertices[i1], id2)];
        vertices := vertices[i2 := AddNeighbor(vertices[i2], id1)];
      }
    }

    /** GPH_removeEdge. */
    method RemoveEdge(id1: int, id2: int)
      modifies this
      ensures vertices == RemovedEdge(old(vertices), id1, id2)
    {
      var i1 := GetIndice(id1);
      var i2 := GetIndice(id2);
      if i1 != -1 && i2 != -1 {
        vertices := vertices[i1 := RemoveNeighbor(vertices[i1], id2)];
        vertices := vertices[i2 := RemoveNeighbor(vertices[i2], id1)];
      }
    }

    /** GPH_removeVertex. The source's loop must stay inside the vertex's list and find each
        neighbour it reads; RemoveVertexOk shows that a consistent graph guarantees both. */
    method RemoveVertex(id: int)
      requires RemovedVertex(vertices, id).Some?
      modifies this
      ensures vertices == RemovedVertex(old(vertices), id).value
    {
      var indice := GetIndice(id);
      if indice != -1 {
        var i := 0;
        while i < vertices[indice].count
          invariant 0 <= i && |vertices| == |old(vertices)|
          invariant RemoveVertexFrom(vertices, indice, id, i) == RemovedVertex(old(vertices), id)
          decreases if vertices[indice].count > i then vertices[indice].count - i else 0
        {
          var j := GetIndice(vertices[indice].nbhd[i]);
          vertices := vertices[j := RemoveNeighbor(vertices[j], id)];
          i := i + 1;
        }
        vertices := vertices[indice := Unused];
      }
    }
  }
}
