/**
 * Conversion of a molecule or a shell into a graph (src/structure.c). Both conversions create
 * one vertex per atom, whose id is the atom's index, and hand every entry of the atom's
 * neighbour buffer other than FREE to GPH_addNeighbor.
 *
 * MolToGph preallocates one slot per atom, so the vertex of atom i lands in slot i. ShlToGph
 * skips unused atoms and grows the graph as it goes, so the vertex of atom i lands in the slot
 * GPH_addVertex returns, which is the rank of i among the used atoms. The source then fills slot
 * i regardless (ShlGraphAsWritten); ShlGraph and the method ShlToGph fill the slot the vertex
 * took, and the lemmas show that this yields a consistent graph with the shell's edges.
 */
module Conversions {
  import opened Constants
  import opened IdLists
  import opened Graphs
  import opened Degrees
  import opened Adjacency
  import opened Options
  import Molecules
  import Shells

  /** The entries of a neighbour buffer other than FREE, in order. Unlike Ids, this does not stop
      at the first free slot: a molecule's buffer can have holes. */
  function Present(s: seq<int>): (r: seq<int>)
    ensures forall k :: 0 <= k < |r| ==> r[k] != FREE
    ensures forall x :: x in r <==> x in s && x != FREE
  {
    if s == [] then []
    else
      var t := s[..|s| - 1];
      assert s == t + [s[|s| - 1]];
      Present(t) + (if s[|s| - 1] != FREE then [s[|s| - 1]] else [])
  }

  /** The vertex v after GPH_addNeighbor has been called on it with every present entry of s. */
  function Filled(v: Vertex, s: seq<int>): Vertex
  {
    v.(nbhd := AddedAll(v.nbhd, Present(s)), count := v.count + |Present(s)|)
  }

  /** A fresh vertex with the given id, filled from the buffer s. */
  function Listed(id: int, s: seq<int>): Vertex
  {
    Filled(Unused.(id := id), s)
  }

  /** The slots MolToGph builds from the neighbour buffers of a molecule. */
  function MolGraph(ls: seq<seq<int>>): (g: seq<Vertex>)
    ensures |g| == |ls|
  {
    seq(|ls|, i requires 0 <= i < |ls| => Listed(i, ls[i]))
  }

  /** The vertices ShlToGph creates for the used atoms among the first n, in slot order. */
  function Dense(atoms: seq<Shells.ShellAtom>, n: nat): seq<Vertex>
    requires n <= |atoms|
  {
    if n == 0 then []
    else
      Dense(atoms, n - 1) +
      (if Shells.Used(atoms[n - 1]) then [Listed(n - 1, atoms[n - 1].nbhd)] else [])
  }

  /** The number of unused slots that growing by REALLOCSIZE leaves after c used ones. */
  function Pad(c: nat): nat
  {
    (REALLOCSIZE - c % REALLOCSIZE) % REALLOCSIZE
  }

  /** The slots of the graph ShlToGph has built after the first n atoms, with the neighbours of
      each vertex written into the slot the vertex took. */
  function ShlGraphUpTo(atoms: seq<Shells.ShellAtom>, n: nat): seq<Vertex>
    requires n <= |atoms|
  {
    var d := Dense(atoms, n);
    d + UnusedSlots(Pad(|d|))
  }

  /** The graph ShlToGph returns, corrected. */
  function ShlGraph(atoms: seq<Shells.ShellAtom>): seq<Vertex>
  {
    ShlGraphUpTo(atoms, |atoms|)
  }

  /** ShlToGph as written, over the first n atoms: after GPH_addVertex(g, i) the neighbours of
      atom i are written into slot i, whichever slot the vertex took. None when slot i does not
      exist. */
  function ShlGraphAsWritten(atoms: seq<Shells.ShellAtom>, n: nat): Option<seq<Vertex>>
    requires n <= |atoms|
  {
    if n == 0 then Some([])
    else
      match ShlGraphAsWritten(atoms, n - 1)
      case None => None
      case Some(vs) =>
        if !Shells.Used(atoms[n - 1]) then Some(vs)
        else
          var w := AddedVertex(vs, n - 1);
          if n - 1 < |w| then Some(w[n - 1 := Filled(w[n - 1], atoms[n - 1].nbhd)]) else None
  }

  /*********************************************************************************************
   * Consistency conditions
   *********************************************************************************************/

  /** The buffer of vertex i is duplicate-free and lists other vertices of g that list i back. */
  ghost predicate Closed(g: seq<Vertex>, ls: seq<seq<int>>, i: int)
  {
    0 <= i < |ls| && NoDup(Present(ls[i])) &&
    forall x :: x in ls[i] && x != FREE ==>
      x != i && 0 <= x < |ls| && IndexOfVertex(g, x) != -1 && i in ls[x]
  }

  /** Molecule buffers that describe a symmetric simple graph on the atom indices, holes
      allowed. */
  ghost predicate MolSimple(ls: seq<seq<int>>)
  {
    forall i :: 0 <= i < |ls| ==>
      NoDup(Present(ls[i])) &&
      forall x :: x in ls[i] && x != FREE ==> 0 <= x < |ls| && x != i && i in ls[x]
  }

  /*********************************************************************************************
   * Filling one vertex
   *********************************************************************************************/

  /** Present entries of a buffer extended by one slot. */
  lemma PresentSnoc(t: seq<int>, x: int)
    ensures Present(t + [x]) == Present(t) + (if x != FREE then [x] else [])
  {
    assert (t + [x])[..|t|] == t;
  }

  lemma FilledNothing(v: Vertex, s: seq<int>)
    ensures Filled(v, s[..0]) == v
  {
    assert s[..0] == [];
  }

  /** One more entry of the buffer: one more call to GPH_addNeighbor when it is not FREE. */
  lemma FilledStep(v: Vertex, s: seq<int>, j: nat)
    requires j < |s|
    ensures Filled(v, s[..j + 1]) == if s[j] != FREE then AddNeighbor(Filled(v, s[..j]), s[j])
                                     else Filled(v, s[..j])
  {
    assert s[..j + 1] == s[..j] + [s[j]];
    PresentSnoc(s[..j], s[j]);
    var p := Present(s[..j]);
    if s[j] != FREE {
      assert Present(s[..j + 1]) == p + [s[j]];
      AddedAllSnoc(v.nbhd, p, s[j]);
    } else {
      assert Present(s[..j + 1]) == p;
    }
  }

  /** A vertex built from a buffer lists each present entry once, in order of first occurrence;
      its counter is the number of present entries, which is the number of listed ids exactly
      when the buffer has no duplicates. */
  lemma ListedFacts(id: int, s: seq<int>)
    ensures var v := Listed(id, s);
      v.id == id && Packed(v.nbhd) && Nbrs(v) == NewIds([], Present(s)) &&
      v.count == |Present(s)| && (forall x :: x in Nbrs(v) <==> x in s && x != FREE)
    ensures NoDup(Present(s)) ==> Nbrs(Listed(id, s)) == Present(s)
    ensures NoDup(Present(s)) && id != FREE ==> VertexOk(Listed(id, s))
  {
    var v, p := Listed(id, s), Present(s);
    assert Packed([]) && Ids([]) == [];
    AddedAllIds([], p);
    forall x
      ensures x in Nbrs(v) <==> x in s && x != FREE
    {
      NewIdsIn([], p, x);
      assert [] + NewIds([], p) == NewIds([], p);
    }
    if NoDup(p) {
      NewIdsFresh([], p);
    }
  }

  /** On a packed buffer, the present entries are the ids a scan sees. */
  lemma {:induction false} PresentOfPacked(s: seq<int>)
    requires Packed(s)
    ensures Present(s) == Ids(s)
    decreases |s|
  {
    if s != [] {
      var t := s[..|s| - 1];
      assert Packed(t);
      PresentOfPacked(t);
      var f := FirstFree(s);
      if f == |s| {
        assert FirstFree(t) == |t|;
      } else {
        assert s[|s| - 1] == FREE;
        assert FirstFree(t) == f;
      }
    }
  }

  /*********************************************************************************************
   * Graph consistency from the buffers
   *********************************************************************************************/

  /** Slots that are unused or filled from the buffer of their own id, with unique ids and
      closed buffers, form a consistent graph. */
  lemma ListedGraphOk(g: seq<Vertex>, ls: seq<seq<int>>)
    requires forall k :: 0 <= k < |g| ==>
      g[k] == Unused || (0 <= g[k].id < |ls| && g[k] == Listed(g[k].id, ls[g[k].id]))
    requires UniqueIds(g)
    requires forall k :: 0 <= k < |g| && g[k].id != FREE ==> Closed(g, ls, g[k].id)
    ensures GraphOk(g)
  {
    forall k | 0 <= k < |g|
      ensures VertexOk(g[k])
    {
      if g[k] != Unused {
        assert Closed(g, ls, g[k].id);
        ListedFacts(g[k].id, ls[g[k].id]);
      } else {
        assert Ids([]) == [];
      }
    }
    forall k, n | 0 <= k < |g| && n in Nbrs(g[k])
      ensures n != g[k].id && IndexOfVertex(g, n) != -1 && g[k].id in Nbrs(g[IndexOfVertex(g, n)])
    {
      assert Ids([]) == [];
      var i := g[k].id;
      assert g[k] != Unused;
      ListedFacts(i, ls[i]);
      assert Closed(g, ls, i);
      var j := IndexOfVertex(g, n);
      assert g[j].id == n && n != FREE;
      ListedFacts(n, ls[n]);
    }
  }

  /*********************************************************************************************
   * MolToGph
   *********************************************************************************************/

  /** The vertex of atom i is found in slot i, and no other id is a vertex. */
  lemma MolGraphIndex(ls: seq<seq<int>>, id: int)
    ensures IndexOfVertex(MolGraph(ls), id) == if 0 <= id < |ls| then id else -1
  {
    var g := MolGraph(ls);
    forall k | 0 <= k < |g|
      ensures g[k].id == k
    {
    }
    var r := IndexOfVertex(g, id);
    if 0 <= id < |ls| {
      assert g[id].id == id;
      assert r != -1 && g[r].id == id;
    }
  }

  /** MolToGph gives every atom a vertex, joined to exactly the present entries of the atom's
      buffer, with a counter equal to their number; when the buffers describe a symmetric
      simple graph, so does the result. */
  lemma MolGraphFacts(ls: seq<seq<int>>)
    ensures forall i :: HasVertex(MolGraph(ls), i) <==> 0 <= i < |ls|
    ensures forall a, b :: Adjacent(MolGraph(ls), a, b) <==> 0 <= a < |ls| && b in ls[a] && b != FREE
    ensures forall i :: 0 <= i < |ls| ==> MolGraph(ls)[i].count == |Present(ls[i])|
    ensures MolSimple(ls) ==> GraphOk(MolGraph(ls))
  {
    var g := MolGraph(ls);
    forall i
      ensures HasVertex(g, i) <==> 0 <= i < |ls|
    {
      MolGraphIndex(ls, i);
    }
    forall a, b
      ensures Adjacent(g, a, b) <==> 0 <= a < |ls| && b in ls[a] && b != FREE
    {
      MolGraphIndex(ls, a);
      if 0 <= a < |ls| {
        ListedFacts(a, ls[a]);
      }
    }
    forall i | 0 <= i < |ls|
      ensures g[i].count == |Present(ls[i])|
    {
      ListedFacts(i, ls[i]);
    }
    if MolSimple(ls) {
      assert UniqueIds(g) by {
        forall k | 0 <= k < |g| && g[k].id != FREE
          ensures IndexOfVertex(g, g[k].id) == k
        {
          MolGraphIndex(ls, k);
        }
      }
      forall k | 0 <= k < |g| && g[k].id != FREE
        ensures Closed(g, ls, g[k].id)
      {
        forall x | x in ls[k] && x != FREE
          ensures IndexOfVertex(g, x) != -1
        {
          MolGraphIndex(ls, x);
        }
      }
      ListedGraphOk(g, ls);
    }
  }

  /** One step of the outer loop of MolToGph: GPH_addVertex(g, i) takes slot i, and filling it
      extends the prefix of the result by one vertex. */
  lemma MolGraphStep(ls: seq<seq<int>>, i: nat)
    requires i < |ls|
    ensures var vs := MolGraph(ls[..i]) + UnusedSlots(|ls| - i);
      AddVertexAt(vs, i) == i && AddedVertex(vs, i) == vs[i := Unused.(id := i)] &&
      vs[i := Listed(i, ls[i])] == MolGraph(ls[..i + 1]) + UnusedSlots(|ls| - (i + 1))
  {
    var vs := MolGraph(ls[..i]) + UnusedSlots(|ls| - i);
    assert vs[i] == Unused;
    MolGraphIndex(ls[..i], i);
    assert IndexOfVertex(vs, i) == -1 by {
      forall k | 0 <= k < |vs|
        ensures vs[k].id != i
      {
        if k < i {
          assert vs[k] == MolGraph(ls[..i])[k];
        }
      }
    }
    assert IndexOfVertex(vs, FREE) == i by {
      forall k | 0 <= k < i
        ensures vs[k].id != FREE
      {
        assert vs[k] == MolGraph(ls[..i])[k];
      }
    }
    assert vs[i := Listed(i, ls[i])] == MolGraph(ls[..i + 1]) + UnusedSlots(|ls| - (i + 1));
  }

  /*********************************************************************************************
   * ShlToGph
   *********************************************************************************************/

  /** The dense part holds one vertex per used atom among the first n: the vertex of atom i sits
      at the rank of i, filled from i's buffer. */
  lemma {:induction false} DenseFacts(atoms: seq<Shells.ShellAtom>, n: nat)
    requires n <= |atoms|
    ensures var d := Dense(atoms, n);
      |d| == Shells.Rank(atoms, n) &&
      (forall k :: 0 <= k < |d| ==>
        0 <= d[k].id < n && Shells.Used(atoms[d[k].id]) && Shells.Rank(atoms, d[k].id) == k &&
        d[k] == Listed(d[k].id, atoms[d[k].id].nbhd)) &&
      (forall i :: 0 <= i < n && Shells.Used(atoms[i]) ==>
        Shells.Rank(atoms, i) < |d| && d[Shells.Rank(atoms, i)].id == i)
  {
    if n == 0 {
      assert atoms[..0] == [];
    } else {
      DenseFacts(atoms, n - 1);
      Shells.RankStep(atoms, n - 1);
      var d, e := Dense(atoms, n), Dense(atoms, n - 1);
      forall k | 0 <= k < |d|
        ensures 0 <= d[k].id < n && Shells.Used(atoms[d[k].id]) &&
          Shells.Rank(atoms, d[k].id) == k && d[k] == Listed(d[k].id, atoms[d[k].id].nbhd)
      {
        if k < |e| {
          assert d[k] == e[k];
        }
      }
      forall i | 0 <= i < n && Shells.Used(atoms[i])
        ensures Shells.Rank(atoms, i) < |d| && d[Shells.Rank(atoms, i)].id == i
      {
        if i < n - 1 {
          assert d[Shells.Rank(atoms, i)] == e[Shells.Rank(atoms, i)];
        }
      }
    }
  }

  /** Where the vertices of ShlGraphUpTo are: the vertex of a used atom i < n at the rank of i,
      no other id but FREE anywhere, and the free slots after the dense part. */
  lemma ShlIndex(atoms: seq<Shells.ShellAtom>, n: nat, id: int)
    requires n <= |atoms|
    ensures var g, d := ShlGraphUpTo(atoms, n), Dense(atoms, n);
      IndexOfVertex(g, id) ==
        if id == FREE then (if Pad(|d|) == 0 then -1 else |d|)
        else if 0 <= id < n && Shells.Used(atoms[id]) then Shells.Rank(atoms, id)
        else -1
  {
    var g, d := ShlGraphUpTo(atoms, n), Dense(atoms, n);
    DenseFacts(atoms, n);
    forall k | 0 <= k < |d|
      ensures g[k] == d[k] && g[k].id != FREE
    {
    }
    if id != FREE && 0 <= id < n && Shells.Used(atoms[id]) {
      var r := Shells.Rank(atoms, id);
      forall k | 0 <= k < r
        ensures g[k].id != id
      {
        assert Shells.Rank(atoms, d[k].id) == k;
      }
    } else if id != FREE {
      forall k | 0 <= k < |g|
        ensures g[k].id != id
      {
        if k < |d| {
          assert Shells.Rank(atoms, d[k].id) == k;
        }
      }
    } else if Pad(|d|) != 0 {
      assert g[|d|] == Unused;
    }
  }

  /** One step of the outer loop of ShlToGph, for a used atom i: GPH_addVertex(g, i) takes the
      slot after the dense part (growing the graph when there is none), and filling that slot
      extends the dense part by the vertex of i. */
  lemma ShlGraphStep(atoms: seq<Shells.ShellAtom>, i: nat)
    requires i < |atoms| && Shells.Used(atoms[i])
    ensures var vs, f := ShlGraphUpTo(atoms, i), AddVertexAt(ShlGraphUpTo(atoms, i), i);
      f < |AddedVertex(vs, i)| && AddedVertex(vs, i)[f] == Unused.(id := i) &&
      AddedVertex(vs, i)[f := Listed(i, atoms[i].nbhd)] == ShlGraphUpTo(atoms, i + 1)
  {
    var vs, d := ShlGraphUpTo(atoms, i), Dense(atoms, i);
    var c, l := |d|, Listed(i, atoms[i].nbhd);
    ShlIndex(atoms, i, i);
    ShlIndex(atoms, i, FREE);
    assert Dense(atoms, i + 1) == d + [l];
    var p := if Pad(c) == 0 then REALLOCSIZE - 1 else Pad(c) - 1;
    PadStep(c);
    var w := WithUnused(vs);
    assert w == d + UnusedSlots(p + 1) by {
      if Pad(c) == 0 {
        assert vs == d;
      }
    }
    assert AddVertexAt(vs, i) == c && AddedVertex(vs, i) == w[c := Unused.(id := i)];
    SlotTaken(d, l, p);
  }

  /** The padding after one more used slot. */
  lemma PadStep(c: nat)
    ensures Pad(c + 1) == if Pad(c) == 0 then REALLOCSIZE - 1 else Pad(c) - 1
  {
  }

  /** Writing a vertex into the first unused slot after d. */
  lemma SlotTaken(d: seq<Vertex>, l: Vertex, p: nat)
    ensures var w := d + UnusedSlots(p + 1);
      w[|d|] == Unused && w[|d| := l] == d + [l] + UnusedSlots(p)
  {
    var w := d + UnusedSlots(p + 1);
    assert w[|d| := l] == d + [l] + UnusedSlots(p);
  }

  /** ShlToGph, corrected, gives every used atom a vertex and no other id; the vertex of atom i
      sits at the rank of i among the used atoms (the position SHL_copyCageAtoms gives it), is
      joined to exactly the present entries of i's buffer and counts them. When the shell's
      buffers are consistent and only used atoms have neighbours, the graph is consistent and
      its edges are the shell's edges. */
  lemma ShlGraphFacts(atoms: seq<Shells.ShellAtom>)
    ensures forall i :: 0 <= i < |atoms| && Shells.Used(atoms[i]) ==>
      IndexOfVertex(ShlGraph(atoms), i) == Shells.Rank(atoms, i) &&
      ShlGraph(atoms)[Shells.Rank(atoms, i)] == Listed(i, atoms[i].nbhd)
    ensures forall i :: HasVertex(ShlGraph(atoms), i) <==> 0 <= i < |atoms| && Shells.Used(atoms[i])
    ensures forall a, b :: Adjacent(ShlGraph(atoms), a, b) <==>
      0 <= a < |atoms| && Shells.Used(atoms[a]) && b in atoms[a].nbhd && b != FREE
    ensures Consistent(Shells.Lists(atoms)) && Shells.Tidy(atoms) ==> GraphOk(ShlGraph(atoms))
  {
    var g, n := ShlGraph(atoms), |atoms|;
    DenseFacts(atoms, n);
    forall i | 0 <= i < n && Shells.Used(atoms[i])
      ensures IndexOfVertex(g, i) == Shells.Rank(atoms, i) &&
        g[Shells.Rank(atoms, i)] == Listed(i, atoms[i].nbhd)
    {
      ShlIndex(atoms, n, i);
    }
    forall i
      ensures HasVertex(g, i) <==> 0 <= i < n && Shells.Used(atoms[i])
    {
      ShlIndex(atoms, n, i);
    }
    forall a, b
      ensures Adjacent(g, a, b) <==> 0 <= a < n && Shells.Used(atoms[a]) && b in atoms[a].nbhd && b != FREE
    {
      ShlIndex(atoms, n, a);
      if 0 <= a < n && Shells.Used(atoms[a]) {
        ListedFacts(a, atoms[a].nbhd);
      }
    }
    if Consistent(Shells.Lists(atoms)) && Shells.Tidy(atoms) {
      ShlGraphOk(atoms);
    }
  }

  lemma ShlGraphOk(atoms: seq<Shells.ShellAtom>)
    requires Consistent(Shells.Lists(atoms)) && Shells.Tidy(atoms)
    ensures GraphOk(ShlGraph(atoms))
  {
    var g, n, ls := ShlGraph(atoms), |atoms|, Shells.Lists(atoms);
    var d := Dense(atoms, n);
    DenseFacts(atoms, n);
    forall k | 0 <= k < |g|
      ensures g[k] == Unused || (0 <= g[k].id < |ls| && g[k] == Listed(g[k].id, ls[g[k].id]))
    {
      if k < |d| {
        assert g[k] == d[k];
      }
    }
    assert UniqueIds(g) by {
      forall k | 0 <= k < |g| && g[k].id != FREE
        ensures IndexOfVertex(g, g[k].id) == k
      {
        assert k < |d| && g[k] == d[k];
        ShlIndex(atoms, n, g[k].id);
      }
    }
    forall k | 0 <= k < |g| && g[k].id != FREE
      ensures Closed(g, ls, g[k].id)
    {
      assert k < |d| && g[k] == d[k];
      var i := g[k].id;
      assert RowOk(Neighbourhoods(ls), i);
      PresentOfPacked(ls[i]);
      forall x | x in ls[i] && x != FREE
        ensures x != i && 0 <= x < |ls| && IndexOfVertex(g, x) != -1 && i in ls[x]
      {
        assert x in Ids(ls[i]);
        assert Holds(ls, x, i);
        ShlIndex(atoms, n, x);
      }
    }
    ListedGraphOk(g, ls);
  }

  /** A shell whose first atom is unused and whose atoms 1 and 2 are joined: the source gives
      vertex 1 slot 0 and vertex 2 slot 1, but writes the neighbours of atom 1 into slot 1 and
      those of atom 2 into slot 2, which is not a vertex. */
  function Example(): seq<Shells.ShellAtom>
  {
    var a := Shells.InitAtom.(flag := SHELL_F);
    [Shells.InitAtom, a.(nbhd := [2, FREE, FREE, FREE]), a.(nbhd := [1, FREE, FREE, FREE])]
  }

  /** The buffers of the example, as scans see them and as GPH_addNeighbor fills them. */
  lemma ExampleLists()
    ensures Ids([2, FREE, FREE, FREE]) == [2] && Ids([1, FREE, FREE, FREE]) == [1]
    ensures AddedAll([], [2]) == [2, FREE, FREE, FREE] && AddedAll([], [1]) == [1, FREE, FREE, FREE]
  {
    var l1, l2: seq<int> := [2, FREE, FREE, FREE], [1, FREE, FREE, FREE];
    assert l1[1..] == [FREE, FREE, FREE] && l2[1..] == [FREE, FREE, FREE];
    assert FirstFree(l1) == 1 && FirstFree(l2) == 1;
    assert IndexOf([], 2) == -1 && IndexOf([], 1) == -1;
    assert FirstFree([]) == 0 && WithFreeSlot([]) == [FREE, FREE, FREE, FREE];
    assert [2][1..] == [] && [1][1..] == [];
  }

  /** The present entries of the example's buffers. */
  lemma ExamplePresent()
    ensures Present([2, FREE, FREE, FREE]) == [2] && Present([1, FREE, FREE, FREE]) == [1]
  {
    ExampleLists();
    PresentOfPacked([2, FREE, FREE, FREE]);
    PresentOfPacked([1, FREE, FREE, FREE]);
  }

  /** The example's buffers are consistent and only its used atoms have neighbours. */
  lemma ExampleBuffers()
    ensures Consistent(Shells.Lists(Example())) && Shells.Tidy(Example())
  {
    var ex := Example();
    var ls := Shells.Lists(ex);
    ExampleLists();
    assert Ids([]) == [];
    assert Neighbourhoods(ls) == [[], [2], [1]];
    assert Simple(Neighbourhoods(ls)) by {
      assert RowOk([[], [2], [1]], 0) && RowOk([[], [2], [1]], 1) && RowOk([[], [2], [1]], 2);
    }
    forall k, y | Holds(ls, k, y)
      ensures Shells.Used(ex[k])
    {
      assert k != 0;
    }
  }

  /** What the source builds from the example: vertex 1 in slot 0 with no neighbours, vertex 2
      in slot 1 holding the neighbours of atom 1, and the neighbours of atom 2 in the unused
      slot 2. */
  lemma ExampleAsWritten()
    ensures ShlGraphAsWritten(Example(), 3) == Some([Unused.(id := 1),
      Vertex(2, [2, FREE, FREE, FREE], 1), Vertex(FREE, [1, FREE, FREE, FREE], 1), Unused])
  {
    var ex := Example();
    ExampleLists();
    ExamplePresent();
    var s1 := ShlGraphAsWritten(ex, 1).value;
    assert s1 == [];
    var w1 := AddedVertex(s1, 1);
    assert w1 == [Unused.(id := 1), Unused, Unused, Unused];
    var s2 := ShlGraphAsWritten(ex, 2).value;
    var v1 := Vertex(FREE, [2, FREE, FREE, FREE], 1);
    assert s2 == w1[1 := Filled(Unused, [2, FREE, FREE, FREE])];
    assert s2 == [Unused.(id := 1), v1, Unused, Unused];
    var w2 := AddedVertex(s2, 2);
    assert IndexOfVertex(s2, 2) == -1 && IndexOfVertex(s2, FREE) == 1;
    assert w2 == [Unused.(id := 1), v1.(id := 2), Unused, Unused];
    assert Filled(Unused, [1, FREE, FREE, FREE]) == Vertex(FREE, [1, FREE, FREE, FREE], 1);
    assert w2[2 := Filled(Unused, [1, FREE, FREE, FREE])] == [Unused.(id := 1),
      Vertex(2, [2, FREE, FREE, FREE], 1), Vertex(FREE, [1, FREE, FREE, FREE], 1), Unused];
    assert ShlGraphAsWritten(ex, 3) == Some(w2[2 := Filled(Unused, [1, FREE, FREE, FREE])]);
  }

  /** On the example, the as-written conversion loses the edge 1-2 and makes vertex 2 its own
      neighbour, while the corrected one keeps the edge in both directions. */
  lemma ShlToGphMisplaces()
    ensures Consistent(Shells.Lists(Example())) && Shells.Tidy(Example())
    ensures var r := ShlGraphAsWritten(Example(), 3);
      r.Some? && !Adjacent(r.value, 1, 2) && Adjacent(r.value, 2, 2) && !GraphOk(r.value)
    ensures Adjacent(ShlGraph(Example()), 1, 2) && Adjacent(ShlGraph(Example()), 2, 1)
    ensures GraphOk(ShlGraph(Example()))
  {
    ExampleBuffers();
    ExampleLists();
    ExampleAsWritten();
    var r := ShlGraphAsWritten(Example(), 3).value;
    assert r[0].id == 1 && r[1].id == 2;
    assert IndexOfVertex(r, 1) == 0 && IndexOfVertex(r, 2) == 1;
    assert Nbrs(r[0]) == [] && Nbrs(r[1]) == [2];
    assert !Symmetric(r) by {
      assert 2 in Nbrs(r[1]);
    }
    ShlGraphFacts(Example());
  }

  /** When four unused atoms precede the first used one, the source writes past the end of the
      graph's slots. */
  lemma ShlToGphOverruns()
    ensures var u := Shells.InitAtom;
      ShlGraphAsWritten([u, u, u, u, u.(flag := SHELL_F)], 5).None?
  {
    var u := Shells.InitAtom;
    var ex := [u, u, u, u, u.(flag := SHELL_F)];
    assert ShlGraphAsWritten(ex, 0) == Some([]);
    assert ShlGraphAsWritten(ex, 1) == Some([]);
    assert ShlGraphAsWritten(ex, 2) == Some([]);
    assert ShlGraphAsWritten(ex, 3) == Some([]);
    assert ShlGraphAsWritten(ex, 4) == Some([]);
    assert |AddedVertex([], 4)| == REALLOCSIZE;
  }

  /*********************************************************************************************
   * The conversions
   *********************************************************************************************/

  /** The inner loop of both conversions: GPH_addNeighbor on slot k for every entry of s other
      than FREE. */
  method FillSlot(g: Graph, k: nat, s: seq<int>)
    requires k < |g.vertices|
    modifies g
    ensures g.vertices == old(g.vertices)[k := Filled(old(g.vertices)[k], s)]
  {
    ghost var v := g.vertices[k];
    FilledNothing(v, s);
    for j := 0 to |s|
      invariant g.vertices == old(g.vertices)[k := Filled(v, s[..j])]
    {
      FilledStep(v, s, j);
      if s[j] != FREE {
        g.AddNeighborAt(k, s[j]);
      }
    }
    assert s[..|s|] == s;
  }

  /** MolToGph: one preallocated slot per atom, the vertex of atom i in slot i. */
  method MolToGph(m: Molecules.Molecule) returns (g: Graph)
    ensures fresh(g) && g.vertices == MolGraph(Molecules.Lists(m.atoms))
  {
    g := new Graph();
    g.AddAlloc(|m.atoms|);
    ghost var ls := Molecules.Lists(m.atoms);
    assert ls[..0] == [];
    for i := 0 to |m.atoms|
      invariant g.vertices == MolGraph(ls[..i]) + UnusedSlots(|ls| - i)
    {
      MolGraphStep(ls, i);
      var _ := g.AddVertex(i);
      FillSlot(g, i, m.atoms[i].nbhd);
    }
    assert ls[..|ls|] == ls;
  }

  /** ShlToGph, corrected: a vertex for every used atom, filled in the slot GPH_addVertex
      returned for it. */
  method ShlToGph(s: Shells.Shell) returns (g: Graph)
    ensures fresh(g) && g.vertices == ShlGraph(s.atoms)
  {
    g := new Graph();
    for i := 0 to |s.atoms|
      invariant g.vertices == ShlGraphUpTo(s.atoms, i)
    {
      if s.atoms[i].flag != NOT_DEF_F {
        ShlGraphStep(s.atoms, i);
        var indice := g.AddVertex(i);
        FillSlot(g, indice, s.atoms[i].nbhd);
      } else {
        assert Dense(s.atoms, i + 1) == Dense(s.atoms, i);
      }
    }
  }
}
