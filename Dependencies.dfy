/**
 * generateDependancies of src/generation.c, the first step of cage generation. For every vertex
 * v of the dependency graph of cage 0 that still has neighbours, the cage is copied into a new
 * slot of the cage array, v is removed from the copy's graph, and the first neighbour of v is
 * removed from cage 0's graph; this repeats until v has no neighbour left. Cage 0 ends with a
 * graph without edges, and each copy is a variant in which one of the conflicting vertices is
 * gone.
 */
module Dependencies {
  import opened Constants
  import opened IdLists
  import opened Graphs
  import opened Options
  import GraphCopy
  import Shells
  import Mains

  /** No vertex has a neighbour. */
  ghost predicate NoEdges(vs: seq<Vertex>)
  {
    forall k :: 0 <= k < |vs| ==> Nbrs(vs[k]) == []
  }

  /** w is v after deletions: its id kept or freed, its list only losing ids and never longer,
      and kept when v had no neighbour. */
  ghost predicate SlotThinned(v: Vertex, w: Vertex)
  {
    (w.id == v.id || w.id == FREE) &&
    (forall y :: y in Nbrs(w) ==> y in Nbrs(v)) && |Nbrs(w)| <= |Nbrs(v)| &&
    (Nbrs(v) == [] ==> w.id == v.id)
  }

  /** ws is vs with vertices deleted: the same slots, each thinned. The trigger keeps the
      per-slot facts out of the way until a proof asks for a slot. */
  ghost predicate Thinned(vs: seq<Vertex>, ws: seq<Vertex>)
  {
    |ws| == |vs| && forall k {:trigger SlotThinned(vs[k], ws[k])} :: 0 <= k < |vs| ==> SlotThinned(vs[k], ws[k])
  }

  lemma ThinnedTrans(us: seq<Vertex>, vs: seq<Vertex>, ws: seq<Vertex>)
    requires Thinned(us, vs) && Thinned(vs, ws)
    ensures Thinned(us, ws)
  {
    forall k | 0 <= k < |us|
      ensures SlotThinned(us[k], ws[k])
    {
      assert SlotThinned(us[k], vs[k]) && SlotThinned(vs[k], ws[k]);
    }
  }

  /** Slots emptied before stay empty under thinning. */
  lemma ThinnedKeepsEmpty(vs: seq<Vertex>, ws: seq<Vertex>, j: nat)
    requires Thinned(vs, ws) && j <= |vs| && forall k :: 0 <= k < j ==> Nbrs(vs[k]) == []
    ensures forall k :: 0 <= k < j ==> Nbrs(ws[k]) == []
  {
    forall k | 0 <= k < j
      ensures Nbrs(ws[k]) == []
    {
      assert SlotThinned(vs[k], ws[k]);
    }
  }

  /** One step of the inner loop on a consistent graph: the first neighbour n of the vertex at j
      is another vertex, removing it is defined and keeps the graph consistent, takes exactly
      one neighbour from the vertex at j, deletes only n, and adds no neighbour anywhere. */
  lemma RemoveNeighbourStep(vs: seq<Vertex>, j: nat)
    requires GraphOk(vs) && j < |vs| && vs[j].id != FREE && vs[j].count != 0
    ensures 0 < |vs[j].nbhd| && HasVertex(vs, vs[j].nbhd[0]) && vs[j].nbhd[0] != vs[j].id
    ensures RemovedVertex(vs, vs[j].nbhd[0]).Some?
    ensures var r := RemovedVertex(vs, vs[j].nbhd[0]).value;
      GraphOk(r) && Thinned(vs, r) && r[j].id == vs[j].id && r[j].count == vs[j].count - 1
  {
    var v := vs[j];
    assert VertexOk(v);
    CountIdsOfPacked(v.nbhd);
    var n := v.nbhd[0];
    assert n == Nbrs(v)[0] && n in Nbrs(v);
    var idx := IndexOfVertex(vs, n);
    assert idx != -1 && n != v.id;
    RemoveVertexOk(vs, n);
    var r := RemovedVertex(vs, n).value;
    assert IndexOfVertex(vs, v.id) == j;
    forall k | 0 <= k < |vs|
      ensures (r[k].id == vs[k].id || r[k].id == FREE)
      ensures forall y :: y in Nbrs(r[k]) ==> y in Nbrs(vs[k])
      ensures Nbrs(vs[k]) == [] ==> r[k].id == vs[k].id
      ensures |Nbrs(r[k])| <= |Nbrs(vs[k])|
      ensures SlotThinned(vs[k], r[k])
      ensures k != idx && VertexOk(vs[k]) ==> |Nbrs(r[k])| == if n in Nbrs(vs[k]) then |Nbrs(vs[k])| - 1 else |Nbrs(vs[k])|
    {
      if k == idx {
        assert v.id in Nbrs(vs[idx]);
      } else {
        assert VertexOk(vs[k]);
        DeleteFirstFacts(Nbrs(vs[k]), n);
      }
    }
    assert j != idx;
    assert VertexOk(r[j]);
  }

  /** The vertex at j has no neighbour once its counter is 0. */
  lemma NoCountNoNeighbour(vs: seq<Vertex>, j: nat)
    requires GraphOk(vs) && j < |vs| && vs[j].count == 0
    ensures Nbrs(vs[j]) == []
  {
    assert VertexOk(vs[j]);
  }

  /** A copied graph without the vertex x that the original has: the copy is consistent and x is
      gone from it. */
  lemma CopyWithout(vs: seq<Vertex>, x: int)
    requires GraphOk(vs) && HasVertex(vs, x)
    ensures RemovedVertex(GraphCopy.GraphCopy(vs), x).Some?
    ensures var r := RemovedVertex(GraphCopy.GraphCopy(vs), x).value;
      GraphOk(r) && !HasVertex(r, x)
  {
    GraphCopy.CopyOk(vs);
    GraphCopy.CopySameVertices(vs, x);
    RemoveVertexOk(GraphCopy.GraphCopy(vs), x);
  }

  /** The record of one copy made by generateDependancies: the vertex removed from it, cage 0's
      graph at the moment it was copied, and the copy's graph. */
  datatype Split = Split(removed: int, from: seq<Vertex>, graph: seq<Vertex>)

  /** The copy's graph is a copy of s.from, which is a thinning of g holding s.removed, with
      s.removed deleted; it is consistent and no longer holds that vertex. */
  ghost predicate SplitOk(g: seq<Vertex>, s: Split)
  {
    Thinned(g, s.from) && HasVertex(s.from, s.removed) &&
    RemovedVertex(GraphCopy.GraphCopy(s.from), s.removed) == Some(s.graph) &&
    GraphOk(s.graph) && !HasVertex(s.graph, s.removed)
  }

  /** Every recorded copy satisfies SplitOk. */
  ghost predicate SplitsOk(g: seq<Vertex>, splits: map<nat, Split>)
  {
    forall k {:trigger SplitOk(g, splits[k])} :: k in splits ==> SplitOk(g, splits[k])
  }

  /** The slots before j have no neighbours. */
  ghost predicate EmptyBefore(vs: seq<Vertex>, j: nat)
  {
    forall k :: 0 <= k < j && k < |vs| ==> Nbrs(vs[k]) == []
  }

  /** Cage 0's graph during the loop over slot j: consistent, a thinning of the graph g it started
      from, and without neighbours before j. */
  ghost predicate Progress(g: seq<Vertex>, vs: seq<Vertex>, j: nat)
  {
    GraphOk(vs) && Thinned(g, vs) && j < |vs| && EmptyBefore(vs, j)
  }

  /** The cage slots after one copy into the free slot copy: it holds a cage and every other slot
      is as it was, or free when it is new. */
  ghost predicate SlotStep(mocs: seq<Shells.Shell?>, mocs': seq<Shells.Shell?>, copy: nat)
  {
    0 < copy < |mocs'| && |mocs| <= |mocs'| && (copy >= |mocs| || mocs[copy] == null) &&
    mocs'[copy] != null &&
    forall k :: 0 <= k < |mocs'| && k != copy ==> mocs'[k] == if k < |mocs| then mocs[k] else null
  }

  /** MN_copyMoc followed by SHL_removeVertex on the copy: cage 0 goes into the first free slot
      without the vertex id. Cage 0 itself is not touched. */
  method CopyWithoutVertex(m: Mains.Main, mo: Shells.Shell, id: int, ghost copies: set<nat>,
                           ghost g: seq<Vertex>)
    returns (copy: nat, ghost s: Split)
    requires |m.mocs| > 0 && m.mocs[0] == mo && GraphOk(mo.bond.vertices) && HasVertex(mo.bond.vertices, id)
    requires Thinned(g, mo.bond.vertices)
    requires forall k :: k in copies ==> k < |m.mocs| && m.mocs[k] != null
    modifies m
    ensures copy == Mains.FirstNull(old(m.mocs)) && |m.mocs| == |Mains.WithNull(old(m.mocs), REALLOCSIZE)|
    ensures SlotStep(old(m.mocs), m.mocs, copy) && copy !in copies
    ensures s.removed == id && s.from == mo.bond.vertices && SplitOk(g, s)
    ensures fresh(m.mocs[copy]) && fresh(m.mocs[copy].bond)
    ensures m.mocs[copy].atoms == Shells.CopiedAtoms(mo.atoms) && m.mocs[copy].cycle == Copied(mo.cycle)
    ensures m.mocs[copy].bond.vertices == s.graph
    ensures m.substrat == old(m.substrat) && m.envelope == old(m.envelope) && m.envarom == old(m.envarom)
  {
    CopyWithout(mo.bond.vertices, id);
    Mains.WithNullFacts(m.mocs, REALLOCSIZE);
    copy := m.CopyMoc(mo);
    m.mocs[copy].RemoveVertex(id);
    s := Split(id, mo.bond.vertices, m.mocs[copy].bond.vertices);
  }

  /** SHL_removeVertex(mo, neighbor(v, 0)) for the vertex v at slot j of cage 0's graph: the
      graph stays a consistent thinning of g without neighbours before j, and slot j keeps its
      vertex and loses a neighbour. */
  method DropNeighbour(mo: Shells.Shell, j: nat, ghost g: seq<Vertex>)
    requires Progress(g, mo.bond.vertices, j)
    requires mo.bond.vertices[j].id != FREE && mo.bond.vertices[j].count != 0
    modifies mo.bond
    ensures |old(mo.bond.vertices[j].nbhd)| > 0
    ensures RemovedVertex(old(mo.bond.vertices), old(mo.bond.vertices[j].nbhd[0])) == Some(mo.bond.vertices)
    ensures Progress(g, mo.bond.vertices, j)
    ensures mo.bond.vertices[j].id == old(mo.bond.vertices[j].id)
    ensures mo.bond.vertices[j].count < old(mo.bond.vertices[j].count)
  {
    RemoveNeighbourStep(mo.bond.vertices, j);
    ghost var before := mo.bond.vertices;
    mo.RemoveVertex(mo.bond.vertices[j].nbhd[0]);
    ThinnedTrans(g, before, mo.bond.vertices);
    ThinnedKeepsEmpty(before, mo.bond.vertices, j);
  }

  /** One step of the inner loop of generateDependancies for the vertex at slot j of cage 0's
      graph: a copy of the cage goes into the first free slot and loses that vertex, and cage 0
      loses the first neighbour of that vertex. The slots in copies are left alone. */
  method SplitOnce(m: Mains.Main, mo: Shells.Shell, j: nat, ghost copies: set<nat>, ghost g: seq<Vertex>)
    returns (copy: nat, ghost s: Split)
    requires |m.mocs| > 0 && m.mocs[0] == mo && Progress(g, mo.bond.vertices, j)
    requires mo.bond.vertices[j].id != FREE && mo.bond.vertices[j].count != 0
    requires forall k :: k in copies ==> k < |m.mocs| && m.mocs[k] != null
    modifies m, mo.bond
    ensures SlotStep(old(m.mocs), m.mocs, copy) && copy !in copies
    ensures forall k :: k in copies ==> m.mocs[k] == old(m.mocs[k])
    ensures s.removed == old(mo.bond.vertices[j].id) && s.from == old(mo.bond.vertices) && SplitOk(g, s)
    ensures fresh(m.mocs[copy]) && fresh(m.mocs[copy].bond)
    ensures m.mocs[copy].atoms == Shells.CopiedAtoms(mo.atoms) && m.mocs[copy].cycle == Copied(mo.cycle)
    ensures m.mocs[copy].bond.vertices == s.graph
    ensures Progress(g, mo.bond.vertices, j) && mo.bond.vertices[j].id == old(mo.bond.vertices[j].id)
    ensures mo.bond.vertices[j].count < old(mo.bond.vertices[j].count)
    ensures m.substrat == old(m.substrat) && m.envelope == old(m.envelope) && m.envarom == old(m.envarom)
  {
    assert IndexOfVertex(mo.bond.vertices, mo.bond.vertices[j].id) == j;
    copy, s := CopyWithoutVertex(m, mo, mo.bond.vertices[j].id, copies, g);
    DropNeighbour(mo, j, g);
    forall k | k in copies
      ensures m.mocs[k] == old(m.mocs[k])
    {
      assert k < |old(m.mocs)| && k != copy;
    }
  }

  /** The cage slots after copies were made into the slots in copies: those, free or absent at
      the start, now hold cages, and every other slot is as it was or free. */
  ghost predicate SlotsKept(mocs: seq<Shells.Shell?>, mocs0: seq<Shells.Shell?>, copies: set<nat>)
  {
    |mocs| >= 1 && |mocs0| <= |mocs| &&
    (forall k :: 0 <= k < |mocs| && k !in copies ==> mocs[k] == if k < |mocs0| then mocs0[k] else null) &&
    (forall k :: k in copies ==> k < |mocs| && (k >= |mocs0| || mocs0[k] == null) && mocs[k] != null)
  }

  /** A copy into a free slot keeps SlotsKept. */
  lemma SlotsKeptStep(mocs: seq<Shells.Shell?>, mocs': seq<Shells.Shell?>, mocs0: seq<Shells.Shell?>,
                      copies: set<nat>, copy: nat)
    requires SlotsKept(mocs, mocs0, copies) && SlotStep(mocs, mocs', copy)
    ensures SlotsKept(mocs', mocs0, copies + {copy})
    ensures forall k :: k in copies ==> k != copy && k < |mocs| && mocs'[k] == mocs[k]
  {
  }

  /** Adding a record that satisfies SplitOk keeps SplitsOk. */
  lemma SplitsOkStep(g: seq<Vertex>, splits: map<nat, Split>, copy: nat, s: Split)
    requires SplitsOk(g, splits) && SplitOk(g, s)
    ensures SplitsOk(g, splits[copy := s])
  {
  }

  /** One pass of the inner loop of generateDependancies with its bookkeeping: one more copy
      is made and recorded, the slots in known are left alone, and cage 0's graph keeps its
      progress while slot j keeps its vertex and loses a neighbour. */
  method SplitStep(m: Mains.Main, mo: Shells.Shell, j: nat, ghost g: seq<Vertex>,
                   ghost mocs0: seq<Shells.Shell?>, ghost known: set<nat>,
                   ghost atoms: seq<Shells.ShellAtom>, ghost cycle: seq<int>, ghost done: map<nat, Split>)
    returns (ghost added: map<nat, Split>)
    requires SlotsKept(m.mocs, mocs0, known + done.Keys) && m.mocs[0] == mo
    requires atoms == Shells.CopiedAtoms(mo.atoms) && cycle == Copied(mo.cycle)
    requires Progress(g, mo.bond.vertices, j)
    requires mo.bond.vertices[j].id != FREE && mo.bond.vertices[j].count != 0
    requires forall k :: k in known ==> k !in done
    requires SplitsOk(g, done)
    requires forall k :: k in done ==>
      m.mocs[k].bond != mo.bond && m.mocs[k].atoms == atoms && m.mocs[k].cycle == cycle &&
      m.mocs[k].bond.vertices == done[k].graph
    modifies m, mo.bond
    ensures SlotsKept(m.mocs, mocs0, known + added.Keys) && m.mocs[0] == mo
    ensures Progress(g, mo.bond.vertices, j) && mo.bond.vertices[j].id != FREE
    ensures mo.bond.vertices[j].count < old(mo.bond.vertices[j].count)
    ensures forall k :: k in known ==> k !in added && m.mocs[k] == old(m.mocs[k])
    ensures SplitsOk(g, added)
    ensures forall k :: k in added ==>
      (k in done ==> m.mocs[k] == old(m.mocs[k])) && (k !in done ==> fresh(m.mocs[k]) && fresh(m.mocs[k].bond)) &&
      m.mocs[k].bond != mo.bond && m.mocs[k].atoms == atoms && m.mocs[k].cycle == cycle &&
      m.mocs[k].bond.vertices == added[k].graph
    ensures m.substrat == old(m.substrat) && m.envelope == old(m.envelope) && m.envarom == old(m.envarom)
  {
    ghost var mocs := m.mocs;
    var copy, s := SplitOnce(m, mo, j, known + done.Keys, g);
    SlotsKeptStep(mocs, m.mocs, mocs0, known + done.Keys, copy);
    SplitsOkStep(g, done, copy, s);
    added := done[copy := s];
    assert known + added.Keys == (known + done.Keys) + {copy};
    forall k | k in added
      ensures (k in done ==> m.mocs[k] == old(m.mocs[k])) && (k !in done ==> fresh(m.mocs[k]) && fresh(m.mocs[k].bond)) &&
        m.mocs[k].bond != mo.bond && m.mocs[k].atoms == atoms && m.mocs[k].cycle == cycle &&
        m.mocs[k].bond.vertices == added[k].graph
    {
      if k != copy {
        assert k in done && m.mocs[k] == mocs[k];
      }
    }
  }

  /** The inner loop of generateDependancies for slot j of cage 0's graph: while the vertex
      there has neighbours, split once. Afterwards it has none, the earlier slots still have
      none, the slots in known are untouched, and each new copy is recorded in added. */
  method SplitVertex(m: Mains.Main, mo: Shells.Shell, j: nat, ghost g: seq<Vertex>,
                     ghost mocs0: seq<Shells.Shell?>, ghost known: set<nat>,
                     ghost atoms: seq<Shells.ShellAtom>, ghost cycle: seq<int>)
    returns (ghost added: map<nat, Split>)
    requires SlotsKept(m.mocs, mocs0, known) && m.mocs[0] == mo
    requires atoms == Shells.CopiedAtoms(mo.atoms) && cycle == Copied(mo.cycle)
    requires forall k :: k in known ==> m.mocs[k].bond != mo.bond
    requires Progress(g, mo.bond.vertices, j) && mo.bond.vertices[j].id != FREE
    modifies m, mo.bond
    ensures SlotsKept(m.mocs, mocs0, known + added.Keys) && m.mocs[0] == mo
    ensures Progress(g, mo.bond.vertices, j) && Nbrs(mo.bond.vertices[j]) == []
    ensures forall k :: k in known ==>
      k !in added && m.mocs[k] == old(m.mocs[k]) && m.mocs[k].bond != mo.bond &&
      m.mocs[k].atoms == old(m.mocs[k].atoms) && m.mocs[k].cycle == old(m.mocs[k].cycle) &&
      m.mocs[k].bond.vertices == old(m.mocs[k].bond.vertices)
    ensures SplitsOk(g, added)
    ensures forall k :: k in added ==>
      fresh(m.mocs[k]) && fresh(m.mocs[k].bond) && m.mocs[k].bond != mo.bond &&
      m.mocs[k].atoms == atoms && m.mocs[k].cycle == cycle &&
      m.mocs[k].bond.vertices == added[k].graph
    ensures m.substrat == old(m.substrat) && m.envelope == old(m.envelope) && m.envarom == old(m.envarom)
  {
    added := map[];
    while mo.bond.vertices[j].count != 0
      invariant SlotsKept(m.mocs, mocs0, known + added.Keys) && m.mocs[0] == mo
      invariant atoms == Shells.CopiedAtoms(mo.atoms) && cycle == Copied(mo.cycle)
      invariant Progress(g, mo.bond.vertices, j) && mo.bond.vertices[j].id != FREE
      invariant forall k :: k in known ==> k !in added && m.mocs[k] == old(m.mocs[k])
      invariant SplitsOk(g, added)
      invariant forall k :: k in added ==>
        fresh(m.mocs[k]) && fresh(m.mocs[k].bond) && m.mocs[k].bond != mo.bond && m.mocs[k].atoms == atoms && m.mocs[k].cycle == cycle &&
        m.mocs[k].bond.vertices == added[k].graph
      invariant m.substrat == old(m.substrat) && m.envelope == old(m.envelope) && m.envarom == old(m.envarom)
      decreases mo.bond.vertices[j].count
    {
      added := SplitStep(m, mo, j, g, mocs0, known, atoms, cycle, added);
    }
    NoCountNoNeighbour(mo.bond.vertices, j);
  }

  /** The outer loop moves on from slot j once it has no neighbours. */
  lemma EmptyBeforeNext(vs: seq<Vertex>, j: nat)
    requires EmptyBefore(vs, j) && j < |vs| && Nbrs(vs[j]) == []
    ensures EmptyBefore(vs, j + 1)
  {
  }

  /** generateDependancies, on cage 0 only as in the source. The returned ghost map records, for
      every slot that now holds a copy, the vertex removed from that copy, cage 0's graph when it
      was copied (an intermediate graph between the old one and the final one) and the copy's
      graph. */
  method GenerateDependencies(m: Mains.Main) returns (ghost copies: map<nat, Split>)
    requires |m.mocs| > 0 && m.mocs[0] != null && GraphOk(m.mocs[0].bond.vertices)
    modifies m, m.mocs[0].bond
    ensures |m.mocs| >= 1 && m.mocs[0] == old(m.mocs[0])
    ensures m.mocs[0].atoms == old(m.mocs[0].atoms) && m.mocs[0].cycle == old(m.mocs[0].cycle)
    ensures var g, vs := old(m.mocs[0].bond.vertices), m.mocs[0].bond.vertices;
      GraphOk(vs) && Thinned(g, vs) && (|m.mocs[0].atoms| != 0 ==> NoEdges(vs)) &&
      (|m.mocs[0].atoms| == 0 ==> vs == g)
    ensures SlotsKept(m.mocs, old(m.mocs), copies.Keys)
    ensures SplitsOk(old(m.mocs[0].bond.vertices), copies)
    ensures forall k :: k in copies ==>
      fresh(m.mocs[k]) && fresh(m.mocs[k].bond) &&
      m.mocs[k].atoms == Shells.CopiedAtoms(old(m.mocs[0].atoms)) &&
      m.mocs[k].cycle == Copied(old(m.mocs[0].cycle)) && m.mocs[k].bond.vertices == copies[k].graph
    ensures m.substrat == old(m.substrat) && m.envelope == old(m.envelope) && m.envarom == old(m.envarom)
  {
    copies := map[];
    var mo := m.mocs[0];
    ghost var g := mo.bond.vertices;
    ghost var atoms, cycle := Shells.CopiedAtoms(mo.atoms), Copied(mo.cycle);
    if |mo.atoms| != 0 {
      var n := |mo.bond.vertices|;
      for j := 0 to n
        invariant SlotsKept(m.mocs, old(m.mocs), copies.Keys) && m.mocs[0] == mo
        invariant GraphOk(mo.bond.vertices) && Thinned(g, mo.bond.vertices)
        invariant EmptyBefore(mo.bond.vertices, j)
        invariant SplitsOk(g, copies)
        invariant forall k :: k in copies ==>
          fresh(m.mocs[k]) && fresh(m.mocs[k].bond) && m.mocs[k].bond != mo.bond &&
          m.mocs[k].atoms == atoms && m.mocs[k].cycle == cycle &&
          m.mocs[k].bond.vertices == copies[k].graph
        invariant m.substrat == old(m.substrat) && m.envelope == old(m.envelope) && m.envarom == old(m.envarom)
      {
        var v := mo.bond.vertices[j];
        if v.id != FREE && v.count > 0 {
          ghost var known := copies;
          var added := SplitVertex(m, mo, j, g, old(m.mocs), copies.Keys, atoms, cycle);
          copies := copies + added;
          assert copies.Keys == known.Keys + added.Keys;
          forall k | k in copies
            ensures SplitOk(g, copies[k])
          {
            if k !in added {
              assert k in known;
            }
          }
          forall k | k in copies
            ensures fresh(m.mocs[k]) && fresh(m.mocs[k].bond) && m.mocs[k].bond != mo.bond &&
              m.mocs[k].atoms == atoms && m.mocs[k].cycle == cycle &&
              m.mocs[k].bond.vertices == copies[k].graph
          {
            if k !in added {
              assert k in known;
            }
          }
        } else if v.id == FREE {
          assert VertexOk(v);
        } else {
          NoCountNoNeighbour(mo.bond.vertices, j);
        }
        EmptyBeforeNext(mo.bond.vertices, j);
      }
      assert EmptyBefore(mo.bond.vertices, n);
    }
  }
}
