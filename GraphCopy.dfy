/**
 * GPH_copy of src/structureGph.c: a new graph with exactly GPH_nbVertex(g) unused slots, into
 * which every used slot of g is added in slot order, with a copy of its neighbour list and its
 * counter. On a graph whose ids are unique the copy is the compacted graph: the used slots of g,
 * in order, with nothing in between.
 */
module GraphCopy {
  import opened Constants
  import opened IdLists
  import opened Graphs

  /** A used slot as GPH_copy stores it: same id and counter, the list cut by LST_copy. */
  function CopyVertex(v: Vertex): Vertex
  {
    Vertex(v.id, Copied(v.nbhd), v.count)
  }

  /** The slots of the copy once the loop of GPH_copy has visited the first n slots of vs,
      starting from the slots c. */
  function CopyLoop(vs: seq<Vertex>, c: seq<Vertex>, n: nat): seq<Vertex>
    requires n <= |vs|
  {
    if n == 0 then c else CopyStep(CopyLoop(vs, c, n - 1), vs[n - 1])
  }

  /** One step of that loop: a used slot v is added to the copy d, and the slot GPH_addVertex
      returns gets a copy of v's list and v's counter. */
  function CopyStep(d: seq<Vertex>, v: Vertex): seq<Vertex>
  {
    if v.id == FREE then d
    else
      var k := AddVertexAt(d, v.id);
      var r := AddedVertex(d, v.id);
      AddVertexInRange(d, v.id);
      r[k := r[k].(nbhd := Copied(v.nbhd), count := v.count)]
  }

  /** The index GPH_addVertex returns is a slot of the graph it leaves. */
  lemma AddVertexInRange(d: seq<Vertex>, id: int)
    requires id != FREE
    ensures AddVertexAt(d, id) < |AddedVertex(d, id)|
  {
    AddVertexFacts(d, id);
  }

  /** A new id fills the first unused slot of a copy made of used slots then unused ones. */
  lemma CopyStepFills(p: seq<Vertex>, m: nat, v: Vertex)
    requires m >= 1 && v.id != FREE
    requires forall q :: 0 <= q < |p| ==> p[q].id != FREE && p[q].id != v.id
    ensures CopyStep(p + UnusedSlots(m), v) == p + [CopyVertex(v)] + UnusedSlots(m - 1)
  {
    var d := p + UnusedSlots(m);
    assert IndexOfVertex(d, v.id) == -1 by {
      forall q | 0 <= q < |d|
        ensures d[q].id != v.id
      {
        if q < |p| {
          assert d[q] == p[q];
        }
      }
    }
    assert IndexOfVertex(d, FREE) == |p| by {
      assert d[|p|] == Unused;
      forall q | 0 <= q < |p|
        ensures d[q].id != FREE
      {
        assert d[q] == p[q];
      }
    }
    var r := AddedVertex(d, v.id);
    assert r == d[|p| := d[|p|].(id := v.id)];
  }

  /** The slots GPH_copy returns. */
  function GraphCopy(vs: seq<Vertex>): seq<Vertex>
  {
    CopyLoop(vs, UnusedSlots(VertexCount(vs)), |vs|)
  }

  /** Reference definition: the used slots among the first n, in order, as copied. */
  function Compacted(vs: seq<Vertex>, n: nat): seq<Vertex>
    requires n <= |vs|
  {
    if n == 0 then []
    else Compacted(vs, n - 1) + (if vs[n - 1].id != FREE then [CopyVertex(vs[n - 1])] else [])
  }

  /** A prefix never has more used slots than the whole. */
  lemma {:induction false} VertexCountPrefix(vs: seq<Vertex>, n: nat)
    requires n <= |vs|
    ensures VertexCount(vs[..n]) <= VertexCount(vs)
    ensures n < |vs| ==> VertexCount(vs[..n + 1]) == VertexCount(vs[..n]) + (if vs[n].id != FREE then 1 else 0)
    decreases |vs| - n
  {
    if n < |vs| {
      assert vs[..n + 1][..n] == vs[..n];
      VertexCountPrefix(vs, n + 1);
    } else {
      assert vs[..n] == vs;
    }
  }

  /** One compacted slot per used slot. */
  lemma {:induction false} CompactedLength(vs: seq<Vertex>, n: nat)
    requires n <= |vs|
    ensures |Compacted(vs, n)| == VertexCount(vs[..n])
  {
    if n == 0 {
      assert vs[..0] == [];
    } else {
      CompactedLength(vs, n - 1);
      VertexCountPrefix(vs, n - 1);
    }
  }

  /** The compacted slots are used, and each holds an id found among the first n slots. */
  lemma {:induction false} CompactedIds(vs: seq<Vertex>, n: nat)
    requires n <= |vs|
    ensures forall q :: 0 <= q < |Compacted(vs, n)| ==>
      Compacted(vs, n)[q].id != FREE && 0 <= IndexOfVertex(vs, Compacted(vs, n)[q].id) < n
  {
    if n > 0 {
      CompactedIds(vs, n - 1);
    }
  }

  /** Lookup in the compacted slots finds the copy of the slot lookup finds in vs. */
  lemma {:induction false} CompactedLookup(vs: seq<Vertex>, n: nat)
    requires n <= |vs|
    ensures forall x :: x != FREE ==>
      (IndexOfVertex(Compacted(vs, n), x) == -1 <==> forall k :: 0 <= k < n ==> vs[k].id != x)
    ensures forall x :: x != FREE && IndexOfVertex(Compacted(vs, n), x) != -1 ==>
      Compacted(vs, n)[IndexOfVertex(Compacted(vs, n), x)] == CopyVertex(vs[IndexOfVertex(vs, x)])
  {
    if n > 0 {
      CompactedLookup(vs, n - 1);
      var p, c := Compacted(vs, n - 1), Compacted(vs, n);
      forall x | x != FREE
        ensures IndexOfVertex(c, x) == -1 <==> forall k :: 0 <= k < n ==> vs[k].id != x
        ensures IndexOfVertex(c, x) != -1 ==> c[IndexOfVertex(c, x)] == CopyVertex(vs[IndexOfVertex(vs, x)])
      {
        var i := IndexOfVertex(p, x);
        if i != -1 {
          assert c[i] == p[i];
          assert IndexOfVertex(c, x) == i;
        } else if vs[n - 1].id == x {
          assert c[|p|].id == x;
          assert IndexOfVertex(c, x) == |p|;
          assert IndexOfVertex(vs, x) == n - 1;
        } else {
          assert forall q :: 0 <= q < |c| ==> c[q].id != x;
        }
      }
    }
  }

  /** The compacted prefix only grows with n. */
  lemma {:induction false} CompactedGrows(vs: seq<Vertex>, n: nat)
    requires n <= |vs|
    ensures |Compacted(vs, n)| <= |Compacted(vs, |vs|)|
    decreases |vs| - n
  {
    if n < |vs| {
      CompactedGrows(vs, n + 1);
    }
  }

  /** With unique ids, a used slot's id is not among the compacted slots before it. */
  lemma CompactedNew(vs: seq<Vertex>, n: nat)
    requires UniqueIds(vs) && n < |vs| && vs[n].id != FREE
    ensures forall q :: 0 <= q < |Compacted(vs, n)| ==>
      Compacted(vs, n)[q].id != FREE && Compacted(vs, n)[q].id != vs[n].id
  {
    CompactedIds(vs, n);
    assert IndexOfVertex(vs, vs[n].id) == n;
  }

  /** On a graph with unique ids each step of the loop of GPH_copy fills the next unused slot:
      after n slots the copy is the compacted prefix followed by the slots still unused. */
  lemma CopyLoopCompacts(vs: seq<Vertex>, n: nat, total: nat)
    requires UniqueIds(vs) && n <= |vs| && total == |Compacted(vs, |vs|)|
    ensures |Compacted(vs, n)| <= total
    ensures CopyLoop(vs, UnusedSlots(total), n) == Compacted(vs, n) + UnusedSlots(total - |Compacted(vs, n)|)
  {
    assert Compacted(vs, 0) + UnusedSlots(total) == UnusedSlots(total);
    CompactedGrows(vs, 0);
    var i := 0;
    while i < n
      invariant i <= n && |Compacted(vs, i)| <= total
      invariant CopyLoop(vs, UnusedSlots(total), i) == Compacted(vs, i) + UnusedSlots(total - |Compacted(vs, i)|)
    {
      CopyLoopNext(vs, i + 1, total);
      i := i + 1;
    }
  }

  /** One step of CopyLoopCompacts: slot n - 1 of vs, when used, fills the next unused slot. */
  lemma CopyLoopNext(vs: seq<Vertex>, n: nat, total: nat)
    requires UniqueIds(vs) && 0 < n <= |vs| && total == |Compacted(vs, |vs|)|
    requires |Compacted(vs, n - 1)| <= total
    requires CopyLoop(vs, UnusedSlots(total), n - 1) ==
      Compacted(vs, n - 1) + UnusedSlots(total - |Compacted(vs, n - 1)|)
    ensures |Compacted(vs, n)| <= total
    ensures CopyLoop(vs, UnusedSlots(total), n) == Compacted(vs, n) + UnusedSlots(total - |Compacted(vs, n)|)
  {
    CompactedGrows(vs, n);
    var v := vs[n - 1];
    var p := Compacted(vs, n - 1);
    var m := total - |p|;
    assert CopyLoop(vs, UnusedSlots(total), n) == CopyStep(p + UnusedSlots(m), v);
    if v.id != FREE {
      CompactedNew(vs, n - 1);
      CopyStepFills(p, m, v);
      assert Compacted(vs, n) == p + [CopyVertex(v)];
    } else {
      assert Compacted(vs, n) == p;
    }
  }

  /** GPH_copy of a graph with unique ids is its compacted form: the same vertices with the same
      lists and counters, in slot order, and nothing else. */
  lemma CopyIsCompacted(vs: seq<Vertex>)
    requires UniqueIds(vs)
    ensures GraphCopy(vs) == Compacted(vs, |vs|)
    ensures VertexCount(GraphCopy(vs)) == VertexCount(vs)
  {
    var c := Compacted(vs, |vs|);
    CompactedLength(vs, |vs|);
    assert vs[..|vs|] == vs;
    CopyLoopCompacts(vs, |vs|, |c|);
    assert c + UnusedSlots(0) == c;
    CompactedIds(vs, |vs|);
    CompactedCount(c);
  }

  /** A sequence of used slots counts all of them. */
  lemma {:induction false} CompactedCount(cs: seq<Vertex>)
    requires forall q :: 0 <= q < |cs| ==> cs[q].id != FREE
    ensures VertexCount(cs) == |cs|
  {
    if cs != [] {
      CompactedCount(cs[..|cs| - 1]);
    }
  }

  /** GPH_copy keeps the vertices: an id is a vertex of the copy exactly when it is one of g, and
      its copy has the same neighbour ids and counter. */
  lemma CopySameVertices(vs: seq<Vertex>, x: int)
    requires GraphOk(vs)
    ensures HasVertex(GraphCopy(vs), x) <==> HasVertex(vs, x)
    ensures HasVertex(vs, x) ==>
      var c, v := GraphCopy(vs)[IndexOfVertex(GraphCopy(vs), x)], vs[IndexOfVertex(vs, x)];
      c.id == x && Nbrs(c) == Nbrs(v) && c.count == v.count
  {
    CopyIsCompacted(vs);
    CompactedLookup(vs, |vs|);
    if x != FREE {
      var i := IndexOfVertex(vs, x);
      if i != -1 {
        assert VertexOk(vs[i]);
        CopiedIds(vs[i].nbhd);
      }
    }
  }

  /** With unique ids, no two compacted slots hold the same id. */
  lemma {:induction false} CompactedDistinct(vs: seq<Vertex>, n: nat)
    requires UniqueIds(vs) && n <= |vs|
    ensures forall p, q :: 0 <= p < q < |Compacted(vs, n)| ==> Compacted(vs, n)[p].id != Compacted(vs, n)[q].id
  {
    if n > 0 {
      CompactedDistinct(vs, n - 1);
      if vs[n - 1].id != FREE {
        CompactedNew(vs, n - 1);
      }
    }
  }

  /** Slot q of the copy is the copy of the slot of vs holding the same id, and lookup in the
      copy finds q. */
  lemma CopySlot(vs: seq<Vertex>, q: nat)
    requires GraphOk(vs) && q < |GraphCopy(vs)|
    ensures var c := GraphCopy(vs);
      c[q].id != FREE && 0 <= IndexOfVertex(vs, c[q].id) && IndexOfVertex(c, c[q].id) == q &&
      c[q] == CopyVertex(vs[IndexOfVertex(vs, c[q].id)])
  {
    var c := GraphCopy(vs);
    CopyIsCompacted(vs);
    CompactedIds(vs, |vs|);
    CompactedLookup(vs, |vs|);
    CompactedDistinct(vs, |vs|);
    var x := c[q].id;
    var i := IndexOfVertex(c, x);
    assert i != -1 && c[i].id == c[q].id;
    assert i == q;
  }

  /** A copied slot of a consistent graph is consistent and lists the same ids. */
  lemma CopyVertexOk(v: Vertex)
    requires VertexOk(v)
    ensures VertexOk(CopyVertex(v)) && Nbrs(CopyVertex(v)) == Nbrs(v)
  {
    CopiedIds(v.nbhd);
    assert Copied(v.nbhd) == Ids(v.nbhd);
  }

  /** GPH_copy of a consistent graph is consistent. */
  lemma CopyOk(vs: seq<Vertex>)
    requires GraphOk(vs)
    ensures GraphOk(GraphCopy(vs))
  {
    var c := GraphCopy(vs);
    forall q | 0 <= q < |c|
      ensures VertexOk(c[q]) && IndexOfVertex(c, c[q].id) == q && 0 <= IndexOfVertex(vs, c[q].id)
      ensures Nbrs(c[q]) == Nbrs(vs[IndexOfVertex(vs, c[q].id)])
    {
      CopySlot(vs, q);
      CopyVertexOk(vs[IndexOfVertex(vs, c[q].id)]);
    }
    forall q, n | 0 <= q < |c| && n in Nbrs(c[q])
      ensures n != c[q].id && IndexOfVertex(c, n) != -1 && c[q].id in Nbrs(c[IndexOfVertex(c, n)])
    {
      CopySlot(vs, q);
      var k := IndexOfVertex(vs, c[q].id);
      assert n in Nbrs(vs[k]);
      var l := IndexOfVertex(vs, n);
      assert l != -1 && vs[k].id in Nbrs(vs[l]);
      CopySameVertices(vs, n);
      var i := IndexOfVertex(c, n);
      assert HasVertex(vs, n);
      assert i != -1 && c[i].id == n;
      CopySlot(vs, i);
    }
  }

  /** GPH_copy. */
  method Copy(g: Graph) returns (copy: Graph)
    ensures fresh(copy) && copy.vertices == GraphCopy(g.vertices)
  {
    copy := new Graph();
    var n := g.NbVertex();
    copy.AddAlloc(n);
    assert copy.vertices == UnusedSlots(n);
    for i := 0 to |g.vertices|
      invariant copy.vertices == CopyLoop(g.vertices, UnusedSlots(n), i)
    {
      var v := g.vertices[i];
      if v.id != FREE {
        var indice := copy.AddVertex(v.id);
        var src := new IdList();
        src.elts := v.nbhd;
        var c := src.Copy();
        AddVertexFacts(CopyLoop(g.vertices, UnusedSlots(n), i), v.id);
        copy.vertices := copy.vertices[indice := copy.vertices[indice].(nbhd := c.elts, count := v.count)];
      }
    }
  }
}
