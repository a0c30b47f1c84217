/**
 * The envelope construction of src/expansion.c. Every atom of the substrate molecule adds a few
 * points to a fresh shell, according to its steric grouping; each point has the atom as parent,
 * some become vertices of the shell's dependency graph and some join the shell's cycle list.
 * Then two dependency vertices are bonded when their points share a parent or their parents are
 * bonded in the molecule's graph.
 *
 * Where the points go is geometry (AX1E1, AX2E1, planNormal, rotation and the rest): the model
 * takes the computed positions as a parameter and keeps everything else, in the source's order.
 */
module Expansion {
  import opened Constants
  import opened Options
  import opened IdLists
  import opened Graphs
  import opened Points
  import Molecules
  import opened Shells

  /*********************************************************************************************
   * What one atom adds
   *********************************************************************************************/

  /** The branch of `expansion` an atom takes. */
  datatype Case = AX1E1 | Steric3 | Steric4 | AX2E0 | NoCase

  /** The cases of `expansion`, tried in this order; an atom matching none adds nothing. */
  function CaseOf(a: Molecules.Atom): Case
  {
    if a.ligands == 1 && a.lonePairs == 1 then AX1E1
    else if Molecules.Steric(a) == 3 then Steric3
    else if Molecules.Steric(a) == 4 then Steric4
    else if a.ligands == 2 && a.lonePairs == 0 then AX2E0
    else NoCase
  }

  function Bit(b: bool): nat
  {
    if b then 1 else 0
  }

  /** How many points a case adds for an atom with the given number of ligands: one for AX1E1;
      for steric 3, one when there are fewer than two ligands, one when fewer than three, and the
      two perpendicular points; for steric 4, one per missing ligand below four; four for AX2E0. */
  function PointCount(c: Case, ligands: int): nat
  {
    match c
    case AX1E1 => 1
    case Steric3 => Bit(ligands < 2) + Bit(ligands < 3) + 2
    case Steric4 => Bit(ligands < 2) + Bit(ligands < 3) + Bit(ligands < 4)
    case AX2E0 => 4
    case NoCase => 0
  }

  /** One SHL_addAtom of an expansion: where the point goes, whether it then becomes a
      dependency vertex (SHL_addVertex) and whether it joins the cycle list (SHL_addCycle). */
  datatype Step = Step(p: Point, vertex: bool, ring: bool)

  /** Whether the i-th of the n points a case adds is one of the guarded points that become
      vertices when the atom is a vertex: the one point of AX1E1, every point of steric 4, the
      points of steric 3 before its two perpendicular ones, none of AX2E0. */
  predicate Guarded(c: Case, i: nat, n: nat)
  {
    c == AX1E1 || c == Steric4 || (c == Steric3 && i + 2 < n)
  }

  /** Whether the i-th of the n points a case adds is one of the two perpendicular points of
      steric 3, which join the cycle list when the atom is on the molecule's. */
  predicate Perpendicular(c: Case, i: nat, n: nat)
  {
    c == Steric3 && n <= i + 2
  }

  /** The points a case adds, in the order of its function, at the given positions. vertex is
      checkVertex of the atom, ring is cycle of the atom. */
  function Plan(c: Case, ligands: int, vertex: bool, ring: bool, pos: seq<Point>): (steps: seq<Step>)
    requires |pos| == PointCount(c, ligands)
  {
    seq(|pos|, i requires 0 <= i < |pos| =>
      Step(pos[i], vertex && Guarded(c, i, |pos|), ring && Perpendicular(c, i, |pos|)))
  }

  lemma PlanAt(c: Case, ligands: int, vertex: bool, ring: bool, pos: seq<Point>, i: nat)
    requires |pos| == PointCount(c, ligands) && i < |pos|
    ensures var steps := Plan(c, ligands, vertex, ring, pos);
      |steps| == |pos| &&
      steps[i] == Step(pos[i], vertex && Guarded(c, i, |pos|), ring && Perpendicular(c, i, |pos|))
  {
  }

  /*********************************************************************************************
   * Placing points
   *********************************************************************************************/

  /** The shell after one step: the point takes the first unused slot with the given parent,
      then that slot becomes a vertex or joins the cycle list when the step says so. */
  function Placed(st: ShellState, step: Step, parent: nat): ShellState
  {
    var f := FirstUnusedAtom(st.atoms);
    ShellState(AtomAdded(st.atoms, step.p, parent),
               if step.ring then Added(st.cycle, f) else st.cycle,
               if step.vertex then AddedVertex(st.vertices, f) else st.vertices)
  }

  /** The atom slots after the first n steps: each takes the first unused slot. */
  function AtomsAfter(atoms: seq<ShellAtom>, steps: seq<Step>, parent: nat, n: nat): seq<ShellAtom>
    requires n <= |steps|
  {
    if n == 0 then atoms else AtomAdded(AtomsAfter(atoms, steps, parent, n - 1), steps[n - 1].p, parent)
  }

  /** The slot step i takes: the first unused one when it comes. */
  function Slot(atoms: seq<ShellAtom>, steps: seq<Step>, parent: nat, i: nat): nat
    requires i <= |steps|
  {
    FirstUnusedAtom(AtomsAfter(atoms, steps, parent, i))
  }

  /** The cycle list after the first n steps. */
  function CycleAfter(st: ShellState, steps: seq<Step>, parent: nat, n: nat): seq<int>
    requires n <= |steps|
  {
    if n == 0 then st.cycle
    else
      var c := CycleAfter(st, steps, parent, n - 1);
      if steps[n - 1].ring then Added(c, Slot(st.atoms, steps, parent, n - 1)) else c
  }

  /** The dependency graph after the first n steps. */
  function VerticesAfter(st: ShellState, steps: seq<Step>, parent: nat, n: nat): seq<Vertex>
    requires n <= |steps|
  {
    if n == 0 then st.vertices
    else
      var vs := VerticesAfter(st, steps, parent, n - 1);
      if steps[n - 1].vertex then AddedVertex(vs, Slot(st.atoms, steps, parent, n - 1)) else vs
  }

  /** The shell after the first n steps, in order. */
  function After(st: ShellState, steps: seq<Step>, parent: nat, n: nat): ShellState
    requires n <= |steps|
  {
    ShellState(AtomsAfter(st.atoms, steps, parent, n), CycleAfter(st, steps, parent, n),
               VerticesAfter(st, steps, parent, n))
  }

  /** The shell after all the steps. */
  function PlacedAll(st: ShellState, steps: seq<Step>, parent: nat): ShellState
  {
    After(st, steps, parent, |steps|)
  }

  /** Taking step n is applying Placed to the shell after the first n steps: the parts above
      are the fold of Placed over the steps. */
  lemma AfterStep(st: ShellState, steps: seq<Step>, parent: nat, n: nat)
    requires n < |steps|
    ensures After(st, steps, parent, n + 1) == Placed(After(st, steps, parent, n), steps[n], parent)
  {
  }

  /** The atoms in use in before keep their slots in after. */
  ghost predicate Kept(before: seq<ShellAtom>, after: seq<ShellAtom>)
  {
    |before| <= |after| && forall k :: 0 <= k < |before| && Used(before[k]) ==> after[k] == before[k]
  }

  /** Every atom in use in after was there in before or has the given parent. */
  ghost predicate FromParent(before: seq<ShellAtom>, after: seq<ShellAtom>, parent: int)
  {
    forall k :: 0 <= k < |after| && Used(after[k]) ==>
      (k < |before| && after[k] == before[k]) || after[k].parent == parent
  }

  /** In atoms, the slot f holds the point p with the parent, and it was not in use in before. */
  ghost predicate Holds(before: seq<ShellAtom>, atoms: seq<ShellAtom>, f: nat, p: Point, parent: nat)
  {
    f < |atoms| && atoms[f].flag == SHELL_F && atoms[f].parent == parent &&
    atoms[f].coords == p && !(f < |before| && Used(before[f]))
  }

  /** One SHL_addAtom takes the first unused slot for the point, keeps the atoms in use and adds
      one to SHL_nbAtom. */
  lemma AddedStep(q: seq<ShellAtom>, p: Point, parent: nat)
    ensures var r := AtomAdded(q, p, parent);
      Kept(q, r) && FromParent(q, r, parent) && AtomCount(r) == AtomCount(q) + 1 &&
      Holds(q, r, FirstUnusedAtom(q), p, parent)
  {
    AddAtomFacts(q, p, parent);
  }

  lemma KeptTrans(a: seq<ShellAtom>, b: seq<ShellAtom>, c: seq<ShellAtom>, parent: int)
    requires Kept(a, b) && Kept(b, c) && FromParent(a, b, parent) && FromParent(b, c, parent)
    ensures Kept(a, c) && FromParent(a, c, parent)
  {
  }

  lemma HoldsKept(a: seq<ShellAtom>, b: seq<ShellAtom>, c: seq<ShellAtom>, f: nat, p: Point, parent: nat)
    requires Holds(a, b, f, p, parent) && Kept(b, c)
    ensures Holds(a, c, f, p, parent)
  {
  }

  lemma HoldsBack(a: seq<ShellAtom>, b: seq<ShellAtom>, c: seq<ShellAtom>, f: nat, p: Point, parent: nat)
    requires Holds(b, c, f, p, parent) && Kept(a, b)
    ensures Holds(a, c, f, p, parent)
  {
  }

  /** b is a after one SHL_addAtom of the point p with the parent. */
  ghost predicate AddedOne(a: seq<ShellAtom>, b: seq<ShellAtom>, p: Point, parent: nat)
  {
    Kept(a, b) && FromParent(a, b, parent) && AtomCount(b) == AtomCount(a) + 1 &&
    Holds(a, b, FirstUnusedAtom(a), p, parent)
  }

  /** Atom slots t[0], t[1], ..., each one SHL_addAtom of a step after the previous. */
  ghost predicate Chain(t: seq<seq<ShellAtom>>, steps: seq<Step>, parent: nat)
  {
    |t| == |steps| + 1 && forall i :: 0 <= i < |steps| ==> AddedOne(t[i], t[i + 1], steps[i].p, parent)
  }

  /** The atom slots after each prefix of the steps. */
  function Trace(atoms: seq<ShellAtom>, steps: seq<Step>, parent: nat): (t: seq<seq<ShellAtom>>)
    ensures |t| == |steps| + 1 && forall i :: 0 <= i <= |steps| ==> t[i] == AtomsAfter(atoms, steps, parent, i)
  {
    seq(|steps| + 1, i requires 0 <= i <= |steps| => AtomsAfter(atoms, steps, parent, i))
  }

  lemma TraceChain(atoms: seq<ShellAtom>, steps: seq<Step>, parent: nat)
    ensures Chain(Trace(atoms, steps, parent), steps, parent)
  {
    var t := Trace(atoms, steps, parent);
    forall i | 0 <= i < |steps|
      ensures AddedOne(t[i], t[i + 1], steps[i].p, parent)
    {
      assert t[i + 1] == AtomAdded(t[i], steps[i].p, parent);
      AddAtomFacts(t[i], steps[i].p, parent);
    }
  }

  /** Along a chain, SHL_nbAtom rises by one per step, the atoms in use stay, and every new
      atom has the parent. */
  lemma {:induction false} ChainKeeps(t: seq<seq<ShellAtom>>, steps: seq<Step>, parent: nat, n: nat)
    requires Chain(t, steps, parent) && n <= |steps|
    ensures AtomCount(t[n]) == AtomCount(t[0]) + n && Kept(t[0], t[n]) && FromParent(t[0], t[n], parent)
  {
    if n > 0 {
      ChainKeeps(t, steps, parent, n - 1);
      assert AddedOne(t[n - 1], t[n], steps[n - 1].p, parent);
      KeptTrans(t[0], t[n - 1], t[n], parent);
    }
  }

  /** Along a chain, each step has taken the slot that was first unused before it. */
  lemma {:induction false} ChainTook(t: seq<seq<ShellAtom>>, steps: seq<Step>, parent: nat, n: nat)
    requires Chain(t, steps, parent) && n <= |steps|
    ensures forall i :: 0 <= i < n ==> Holds(t[0], t[n], FirstUnusedAtom(t[i]), steps[i].p, parent)
  {
    if n > 0 {
      ChainTook(t, steps, parent, n - 1);
      ChainKeeps(t, steps, parent, n - 1);
      assert AddedOne(t[n - 1], t[n], steps[n - 1].p, parent);
      forall i | 0 <= i < n
        ensures Holds(t[0], t[n], FirstUnusedAtom(t[i]), steps[i].p, parent)
      {
        if i < n - 1 {
          HoldsKept(t[0], t[n - 1], t[n], FirstUnusedAtom(t[i]), steps[i].p, parent);
        } else {
          HoldsBack(t[0], t[n - 1], t[n], FirstUnusedAtom(t[i]), steps[i].p, parent);
        }
      }
    }
  }

  /** Along a chain, no two steps take the same slot. */
  lemma ChainDistinct(t: seq<seq<ShellAtom>>, steps: seq<Step>, parent: nat)
    requires Chain(t, steps, parent)
    ensures forall i, j :: 0 <= i < j < |steps| ==> FirstUnusedAtom(t[i]) != FirstUnusedAtom(t[j])
  {
    forall i, j | 0 <= i < j < |steps|
      ensures FirstUnusedAtom(t[i]) != FirstUnusedAtom(t[j])
    {
      ChainTook(t, steps, parent, j);
      assert Holds(t[0], t[j], FirstUnusedAtom(t[i]), steps[i].p, parent);
    }
  }

  /** What the steps do to the atom slots: SHL_nbAtom rises by the number of steps, each step
      takes a distinct slot that was not in use and gives it the parent and its position, the
      atoms that were in use stay as they are, and every atom in use afterwards either was in
      use before or has the given parent. */
  lemma PlacedAllAtoms(atoms: seq<ShellAtom>, steps: seq<Step>, parent: nat)
    ensures var r := AtomsAfter(atoms, steps, parent, |steps|);
      AtomCount(r) == AtomCount(atoms) + |steps| && Kept(atoms, r) && FromParent(atoms, r, parent) &&
      (forall i :: 0 <= i < |steps| ==> Holds(atoms, r, Slot(atoms, steps, parent, i), steps[i].p, parent)) &&
      (forall i, j :: 0 <= i < j < |steps| ==> Slot(atoms, steps, parent, i) != Slot(atoms, steps, parent, j))
  {
    var t := Trace(atoms, steps, parent);
    TraceChain(atoms, steps, parent);
    ChainKeeps(t, steps, parent, |steps|);
    ChainTook(t, steps, parent, |steps|);
    ChainDistinct(t, steps, parent);
  }

  /** GPH_addVertex of an id adds exactly that id to the vertices. */
  lemma HasVertexAdded(vs: seq<Vertex>, id: int, x: int)
    requires id != FREE
    ensures HasVertex(AddedVertex(vs, id), x) <==> HasVertex(vs, x) || x == id
  {
    AddVertexFacts(vs, id);
    if !HasVertex(vs, id) && x != FREE && x != id {
      AddVertexLookup(vs, id, x);
    }
  }

  /** A graph as the atom loop leaves it: every neighbour buffer is empty, and every slot from
      the first unused one on is unused. */
  ghost predicate Bare(vs: seq<Vertex>)
  {
    (forall k :: 0 <= k < |vs| ==> vs[k].nbhd == []) &&
    (forall k :: FirstUnused(vs) <= k < |vs| ==> vs[k].id == FREE)
  }

  /** GPH_addVertex never fills a neighbour buffer, and puts a new id in the first unused slot. */
  lemma AddedVertexBare(vs: seq<Vertex>, id: int)
    requires Bare(vs) && id != FREE
    ensures Bare(AddedVertex(vs, id))
  {
    WithUnusedFacts(vs);
    AddVertexFacts(vs, id);
    var r, f := AddedVertex(vs, id), FirstUnused(vs);
    if !HasVertex(vs, id) {
      assert forall k :: 0 <= k <= f ==> r[k].id != FREE;
      assert FirstUnused(r) > f;
    }
  }

  /** The slots the steps take, in order. */
  function Slots(atoms: seq<ShellAtom>, steps: seq<Step>, parent: nat): (r: seq<nat>)
    ensures |r| == |steps| && forall i :: 0 <= i < |steps| ==> r[i] == Slot(atoms, steps, parent, i)
  {
    seq(|steps|, i requires 0 <= i < |steps| => Slot(atoms, steps, parent, i))
  }

  /** One of the first n steps makes its slot the vertex x. */
  ghost predicate VertexBy(steps: seq<Step>, slots: seq<nat>, n: nat, x: int)
    requires n <= |steps| && n <= |slots|
  {
    exists i :: 0 <= i < n && steps[i].vertex && slots[i] == x
  }

  /** One of the first n steps puts its slot x on the cycle list. */
  ghost predicate RingBy(steps: seq<Step>, slots: seq<nat>, n: nat, x: int)
    requires n <= |steps| && n <= |slots|
  {
    exists i :: 0 <= i < n && steps[i].ring && slots[i] == x
  }

  lemma VertexBySnoc(steps: seq<Step>, slots: seq<nat>, n: nat, x: int)
    requires 0 < n <= |steps| && n <= |slots|
    ensures VertexBy(steps, slots, n, x) <==>
      VertexBy(steps, slots, n - 1, x) || (steps[n - 1].vertex && x == slots[n - 1])
  {
    if VertexBy(steps, slots, n, x) {
      var i :| 0 <= i < n && steps[i].vertex && slots[i] == x;
      if i < n - 1 {
        assert VertexBy(steps, slots, n - 1, x);
      }
    }
    if steps[n - 1].vertex && x == slots[n - 1] {
      assert VertexBy(steps, slots, n, x);
    }
  }

  lemma RingBySnoc(steps: seq<Step>, slots: seq<nat>, n: nat, x: int)
    requires 0 < n <= |steps| && n <= |slots|
    ensures RingBy(steps, slots, n, x) <==>
      RingBy(steps, slots, n - 1, x) || (steps[n - 1].ring && x == slots[n - 1])
  {
    if RingBy(steps, slots, n, x) {
      var i :| 0 <= i < n && steps[i].ring && slots[i] == x;
      if i < n - 1 {
        assert RingBy(steps, slots, n - 1, x);
      }
    }
    if steps[n - 1].ring && x == slots[n - 1] {
      assert RingBy(steps, slots, n, x);
    }
  }

  /** What the first n steps do to the dependency graph: the vertices afterwards are those
      before and the slots of the steps that say so; a graph without edges stays well formed and
      without edges. */
  lemma {:induction false} AfterVertices(st: ShellState, steps: seq<Step>, parent: nat, n: nat)
    requires n <= |steps|
    ensures var r, slots := VerticesAfter(st, steps, parent, n), Slots(st.atoms, steps, parent);
      forall x :: HasVertex(r, x) <==> HasVertex(st.vertices, x) || VertexBy(steps, slots, n, x)
    ensures GraphOk(st.vertices) && Bare(st.vertices) ==>
      GraphOk(VerticesAfter(st, steps, parent, n)) && Bare(VerticesAfter(st, steps, parent, n))
  {
    if n > 0 {
      AfterVertices(st, steps, parent, n - 1);
      var slots := Slots(st.atoms, steps, parent);
      var q := VerticesAfter(st, steps, parent, n - 1);
      var r := VerticesAfter(st, steps, parent, n);
      var f := slots[n - 1];
      assert r == if steps[n - 1].vertex then AddedVertex(q, f) else q;
      forall x
        ensures HasVertex(r, x) <==> HasVertex(st.vertices, x) || VertexBy(steps, slots, n, x)
      {
        VertexBySnoc(steps, slots, n, x);
        if steps[n - 1].vertex {
          HasVertexAdded(q, f, x);
        }
      }
      if steps[n - 1].vertex && GraphOk(st.vertices) && Bare(st.vertices) {
        AddVertexOk(q, f);
        AddedVertexBare(q, f);
      }
    }
  }

  /** LST_addElement of an id to a packed buffer adds exactly that id. */
  lemma AddedMember(q: seq<int>, id: int, x: int)
    requires Packed(q) && id != FREE
    ensures x in Ids(Added(q, id)) <==> x in Ids(q) || x == id
  {
    AddedIds(q, id);
  }

  /** What the first n steps do to the cycle list: it stays packed, and its ids afterwards are
      those before and the slots of the steps that say so. */
  lemma {:induction false} AfterCycle(st: ShellState, steps: seq<Step>, parent: nat, n: nat)
    requires n <= |steps| && Packed(st.cycle)
    ensures var r, slots := CycleAfter(st, steps, parent, n), Slots(st.atoms, steps, parent);
      Packed(r) && forall x :: x in Ids(r) <==> x in Ids(st.cycle) || RingBy(steps, slots, n, x)
  {
    if n > 0 {
      AfterCycle(st, steps, parent, n - 1);
      var slots := Slots(st.atoms, steps, parent);
      var q := CycleAfter(st, steps, parent, n - 1);
      var r := CycleAfter(st, steps, parent, n);
      var f := slots[n - 1];
      assert r == if steps[n - 1].ring then Added(q, f) else q;
      if steps[n - 1].ring {
        AddedIds(q, f);
      }
      forall x
        ensures x in Ids(r) <==> x in Ids(st.cycle) || RingBy(steps, slots, n, x)
      {
        RingBySnoc(steps, slots, n, x);
        if steps[n - 1].ring {
          AddedMember(q, f, x);
        }
      }
    }
  }

  /*********************************************************************************************
   * The expansion functions
   *********************************************************************************************/

  /** One step on the shell: SHL_addAtom of the point with the parent, then SHL_addVertex and
      SHL_addCycle of the slot it returned when the step says so. */
  method Place(s: Shell, step: Step, parent: nat)
    modifies s, s.bond
    ensures s.State() == Placed(old(s.State()), step, parent)
  {
    var indice := s.AddAtom(step.p, parent);
    if step.vertex {
      var _ := s.AddVertex(indice);
    }
    if step.ring {
      s.AddCycle(indice);
    }
  }

  /** checkVertex(m, id): the atom is a vertex of the molecule's dependency graph. */
  method IsVertex(m: Molecules.Molecule, id: nat) returns (v: bool)
    ensures v <==> HasVertex(m.bond.vertices, id)
  {
    var b := m.bond.CheckVertex(id);
    v := b == 1;
  }

  /** cycle(m, id): the atom is on the molecule's cycle list. */
  method InCycle(m: Molecules.Molecule, id: nat) returns (c: bool)
    requires m.cycle.Some?
    ensures c <==> id in Ids(m.cycle.value)
  {
    var l := new IdList();
    l.elts := m.cycle.value;
    var b := l.Check(id);
    c := b == 1;
  }

  /** Place as the k-th of a sequence of steps started on st. */
  method Take(s: Shell, step: Step, parent: nat, ghost st: ShellState, ghost steps: seq<Step>, ghost k: nat)
    requires k < |steps| && steps[k] == step && s.State() == After(st, steps, parent, k)
    modifies s, s.bond
    ensures s.State() == After(st, steps, parent, k + 1)
  {
    Place(s, step, parent);
    AfterStep(st, steps, parent, k);
  }

  /** After all the steps is PlacedAll. */
  lemma Finished(st: ShellState, steps: seq<Step>, parent: nat, n: nat)
    requires n == |steps|
    ensures After(st, steps, parent, n) == PlacedAll(st, steps, parent)
  {
  }

  /** One guarded point of expansion_steric3 and expansion_steric4: when cond holds, the next
      position becomes a point, which becomes a vertex when v holds; returns the index of the
      position after the ones taken. */
  method AddGuarded(s: Shell, cond: bool, pos: seq<Point>, k: nat, v: bool, parent: nat,
                    ghost st: ShellState, ghost steps: seq<Step>) returns (next: nat)
    requires cond ==> k < |pos| && k < |steps| && steps[k] == Step(pos[k], v, false)
    requires k <= |steps| && s.State() == After(st, steps, parent, k)
    modifies s, s.bond
    ensures next == k + Bit(cond) && s.State() == After(st, steps, parent, next)
  {
    next := k;
    if cond {
      Take(s, Step(pos[k], v, false), parent, st, steps, k);
      next := k + 1;
    }
  }

  /** The two perpendicular points that end expansion_steric3, both put on the cycle list when
      c holds. */
  method AddPerpendicular(s: Shell, c: bool, pos: seq<Point>, k: nat, parent: nat,
                          ghost st: ShellState, ghost steps: seq<Step>)
    requires k + 2 == |pos| == |steps| && s.State() == After(st, steps, parent, k)
    requires steps[k] == Step(pos[k], false, c) && steps[k + 1] == Step(pos[k + 1], false, c)
    modifies s, s.bond
    ensures s.State() == PlacedAll(st, steps, parent)
  {
    Take(s, Step(pos[k], false, c), parent, st, steps, k);
    Take(s, Step(pos[k + 1], false, c), parent, st, steps, k + 1);
  }

  /** expansion_AX1E1: one point, which becomes a vertex when the atom is one. */
  method ExpandAX1E1(m: Molecules.Molecule, s: Shell, id: nat, pos: seq<Point>)
    requires id < |m.atoms| && |pos| == PointCount(AX1E1, m.atoms[id].ligands) && m.bond != s.bond
    modifies s, s.bond
    ensures s.State() ==
      old(PlacedAll(s.State(), Plan(AX1E1, m.atoms[id].ligands, HasVertex(m.bond.vertices, id), false, pos), id))
  {
    var v := IsVertex(m, id);
    ghost var steps := Plan(AX1E1, m.atoms[id].ligands, HasVertex(m.bond.vertices, id), false, pos);
    Take(s, Step(pos[0], v, false), id, s.State(), steps, 0);
  }

  /** The steps of a steric-3 atom: the guarded points first, then the two perpendicular ones. */
  lemma Steric3Steps(ligands: int, vertex: bool, ring: bool, pos: seq<Point>)
    requires |pos| == PointCount(Steric3, ligands)
    ensures var steps, n := Plan(Steric3, ligands, vertex, ring, pos), Bit(ligands < 2) + Bit(ligands < 3);
      |steps| == |pos| == n + 2 &&
      (forall i :: 0 <= i < n ==> steps[i] == Step(pos[i], vertex, false)) &&
      steps[n] == Step(pos[n], false, ring) && steps[n + 1] == Step(pos[n + 1], false, ring)
  {
  }

  /** expansion_steric3: a point when the atom has fewer than two ligands, one when it has
      fewer than three, each a vertex when the atom is one; then the two perpendicular points,
      both on the cycle list when the atom is on the molecule's. */
  method ExpandSteric3(m: Molecules.Molecule, s: Shell, id: nat, pos: seq<Point>)
    requires id < |m.atoms| && |pos| == PointCount(Steric3, m.atoms[id].ligands) && m.bond != s.bond
    requires m.cycle.Some?
    modifies s, s.bond
    ensures s.State() == old(PlacedAll(s.State(), Plan(Steric3, m.atoms[id].ligands, HasVertex(m.bond.vertices, id),
                                                       id in Ids(m.cycle.value), pos), id))
  {
    ghost var st := s.State();
    var l := m.atoms[id].ligands;
    var v := IsVertex(m, id);
    var c := InCycle(m, id);
    ghost var steps := Plan(Steric3, l, v, c, pos);
    Steric3Steps(l, v, c, pos);
    var k := AddGuarded(s, l < 2, pos, 0, v, id, st, steps);
    k := AddGuarded(s, l < 3, pos, k, v, id, st, steps);
    AddPerpendicular(s, c, pos, k, id, st, steps);
  }

  /** expansion_steric4: a point for each of fewer than two, three and four ligands, each a
      vertex when the atom is one. */
  method ExpandSteric4(m: Molecules.Molecule, s: Shell, id: nat, pos: seq<Point>)
    requires id < |m.atoms| && |pos| == PointCount(Steric4, m.atoms[id].ligands) && m.bond != s.bond
    modifies s, s.bond
    ensures s.State() ==
      old(PlacedAll(s.State(), Plan(Steric4, m.atoms[id].ligands, HasVertex(m.bond.vertices, id), false, pos), id))
  {
    ghost var st := s.State();
    var l := m.atoms[id].ligands;
    var v := IsVertex(m, id);
    ghost var steps := Plan(Steric4, l, HasVertex(m.bond.vertices, id), false, pos);
    assert forall i :: 0 <= i < |pos| ==> steps[i] == Step(pos[i], v, false);
    var k := AddGuarded(s, l < 2, pos, 0, v, id, st, steps);
    k := AddGuarded(s, l < 3, pos, k, v, id, st, steps);
    k := AddGuarded(s, l < 4, pos, k, v, id, st, steps);
    Finished(st, steps, id, k);
  }

  /** expansion_AX2E0: four points, none a vertex. */
  method ExpandAX2E0(m: Molecules.Molecule, s: Shell, id: nat, pos: seq<Point>)
    requires id < |m.atoms| && |pos| == PointCount(AX2E0, m.atoms[id].ligands)
    modifies s, s.bond
    ensures s.State() ==
      old(PlacedAll(s.State(), Plan(AX2E0, m.atoms[id].ligands, HasVertex(m.bond.vertices, id), false, pos), id))
  {
    ghost var st := s.State();
    ghost var steps := Plan(AX2E0, m.atoms[id].ligands, HasVertex(m.bond.vertices, id), false, pos);
    Take(s, Step(pos[0], false, false), id, st, steps, 0);
    Take(s, Step(pos[1], false, false), id, st, steps, 1);
    Take(s, Step(pos[2], false, false), id, st, steps, 2);
    Take(s, Step(pos[3], false, false), id, st, steps, 3);
  }

  /*********************************************************************************************
   * The atom loop of expansion
   *********************************************************************************************/

  /** Each atom comes with as many positions as its case adds points. */
  ghost predicate Positions(atoms: seq<Molecules.Atom>, pos: seq<seq<Point>>)
  {
    |pos| == |atoms| &&
    forall i :: 0 <= i < |atoms| ==> |pos[i]| == PointCount(CaseOf(atoms[i]), atoms[i].ligands)
  }

  /** The steps of atom i: checkVertex looks the atom up in the molecule's graph mg, cycle in
      its cycle list cyc. */
  function AtomSteps(atoms: seq<Molecules.Atom>, mg: seq<Vertex>, cyc: Option<seq<int>>,
                     pos: seq<seq<Point>>, i: nat): seq<Step>
    requires Positions(atoms, pos) && i < |atoms|
  {
    Plan(CaseOf(atoms[i]), atoms[i].ligands, HasVertex(mg, i), cyc.Some? && i in Ids(cyc.value), pos[i])
  }

  /** The shell after the atom loop has processed the first n atoms, from a fresh shell. */
  function Expanded(atoms: seq<Molecules.Atom>, mg: seq<Vertex>, cyc: Option<seq<int>>,
                    pos: seq<seq<Point>>, n: nat): ShellState
    requires Positions(atoms, pos) && n <= |atoms|
  {
    if n == 0 then ShellState([], [], [])
    else PlacedAll(Expanded(atoms, mg, cyc, pos, n - 1), AtomSteps(atoms, mg, cyc, pos, n - 1), n - 1)
  }

  /** The number of points the first n atoms add. */
  function TotalPoints(atoms: seq<Molecules.Atom>, n: nat): nat
    requires n <= |atoms|
  {
    if n == 0 then 0 else TotalPoints(atoms, n - 1) + PointCount(CaseOf(atoms[n - 1]), atoms[n - 1].ligands)
  }

  /** Only a steric-3 atom on the cycle list makes points that join the shell's. */
  ghost predicate RingParent(atoms: seq<Molecules.Atom>, cyc: Option<seq<int>>, p: int)
  {
    0 <= p < |atoms| && CaseOf(atoms[p]) == Steric3 && cyc.Some? && p in Ids(cyc.value)
  }

  /** What holds of the shell once the first n atoms are processed: every point in use has one
      of them as parent; the dependency graph has no edge yet, is well formed, and its vertices
      are points whose parent is a vertex of the molecule's graph; the cycle list is packed and
      holds points whose parent is a steric-3 atom on the molecule's cycle list. */
  ghost predicate Grown(atoms: seq<Molecules.Atom>, mg: seq<Vertex>, cyc: Option<seq<int>>, e: ShellState, n: nat)
  {
    (forall k :: 0 <= k < |e.atoms| && Used(e.atoms[k]) ==> 0 <= e.atoms[k].parent < n) &&
    GraphOk(e.vertices) && Bare(e.vertices) &&
    (forall x :: HasVertex(e.vertices, x) ==>
       0 <= x < |e.atoms| && Used(e.atoms[x]) && HasVertex(mg, e.atoms[x].parent)) &&
    Packed(e.cycle) &&
    (forall x :: x in Ids(e.cycle) ==>
       0 <= x < |e.atoms| && Used(e.atoms[x]) && RingParent(atoms, cyc, e.atoms[x].parent))
  }

  /** What PlacedAll does, in one place: the atoms of PlacedAllAtoms, the vertices of
      AfterVertices and the cycle list of AfterCycle. */
  lemma PlacedAllFacts(st: ShellState, steps: seq<Step>, parent: nat)
    requires Packed(st.cycle)
    ensures var r, slots := PlacedAll(st, steps, parent), Slots(st.atoms, steps, parent);
      AtomCount(r.atoms) == AtomCount(st.atoms) + |steps| &&
      Kept(st.atoms, r.atoms) && FromParent(st.atoms, r.atoms, parent) &&
      (forall i :: 0 <= i < |steps| ==> Holds(st.atoms, r.atoms, slots[i], steps[i].p, parent)) &&
      (forall x :: HasVertex(r.vertices, x) <==> HasVertex(st.vertices, x) || VertexBy(steps, slots, |steps|, x)) &&
      (GraphOk(st.vertices) && Bare(st.vertices) ==> GraphOk(r.vertices) && Bare(r.vertices)) &&
      Packed(r.cycle) &&
      (forall x :: x in Ids(r.cycle) <==> x in Ids(st.cycle) || RingBy(steps, slots, |steps|, x))
  {
    PlacedAllAtoms(st.atoms, steps, parent);
    AfterVertices(st, steps, parent, |steps|);
    AfterCycle(st, steps, parent, |steps|);
  }

  /** The steps of atom n only make vertices when the atom is a vertex of the molecule's graph,
      and only join the cycle list when it is a steric-3 atom on the molecule's cycle list. */
  lemma AtomStepsFlags(atoms: seq<Molecules.Atom>, mg: seq<Vertex>, cyc: Option<seq<int>>,
                       pos: seq<seq<Point>>, n: nat)
    requires Positions(atoms, pos) && n < |atoms|
    ensures var steps := AtomSteps(atoms, mg, cyc, pos, n);
      |steps| == PointCount(CaseOf(atoms[n]), atoms[n].ligands) &&
      (forall i :: 0 <= i < |steps| && steps[i].vertex ==> HasVertex(mg, n)) &&
      (forall i :: 0 <= i < |steps| && steps[i].ring ==> RingParent(atoms, cyc, n))
  {
  }

  /** Placing steps with parent n on a shell where Grown holds for n atoms gives one where it
      holds for n + 1, provided the steps only make vertices and cycle entries that atom n may
      make. */
  lemma GrownPlaced(atoms: seq<Molecules.Atom>, mg: seq<Vertex>, cyc: Option<seq<int>>, e: ShellState,
                    steps: seq<Step>, n: nat)
    requires Grown(atoms, mg, cyc, e, n)
    requires forall i :: 0 <= i < |steps| && steps[i].vertex ==> HasVertex(mg, n)
    requires forall i :: 0 <= i < |steps| && steps[i].ring ==> RingParent(atoms, cyc, n)
    ensures Grown(atoms, mg, cyc, PlacedAll(e, steps, n), n + 1)
    ensures AtomCount(PlacedAll(e, steps, n).atoms) == AtomCount(e.atoms) + |steps|
  {
    var r := PlacedAll(e, steps, n);
    var slots := Slots(e.atoms, steps, n);
    PlacedAllFacts(e, steps, n);
    forall x | HasVertex(r.vertices, x)
      ensures 0 <= x < |r.atoms| && Used(r.atoms[x]) && HasVertex(mg, r.atoms[x].parent)
    {
      if !HasVertex(e.vertices, x) {
        var i :| 0 <= i < |steps| && steps[i].vertex && slots[i] == x;
        assert Holds(e.atoms, r.atoms, slots[i], steps[i].p, n);
      }
    }
    forall x | x in Ids(r.cycle)
      ensures 0 <= x < |r.atoms| && Used(r.atoms[x]) && RingParent(atoms, cyc, r.atoms[x].parent)
    {
      if x !in Ids(e.cycle) {
        var i :| 0 <= i < |steps| && steps[i].ring && slots[i] == x;
        assert Holds(e.atoms, r.atoms, slots[i], steps[i].p, n);
      }
    }
  }

  /** The shell grows from a to b as atom i is processed: Grown carries over and SHL_nbAtom
      rises by the number of points of the atom. */
  ghost predicate GrowsBy(atoms: seq<Molecules.Atom>, mg: seq<Vertex>, cyc: Option<seq<int>>,
                          a: ShellState, b: ShellState, i: nat)
    requires i < |atoms|
  {
    (Grown(atoms, mg, cyc, a, i) ==> Grown(atoms, mg, cyc, b, i + 1)) &&
    AtomCount(b.atoms) == AtomCount(a.atoms) + PointCount(CaseOf(atoms[i]), atoms[i].ligands)
  }

  /** The shells after each prefix of the atom loop. */
  function Stages(atoms: seq<Molecules.Atom>, mg: seq<Vertex>, cyc: Option<seq<int>>,
                  pos: seq<seq<Point>>, n: nat): (t: seq<ShellState>)
    requires Positions(atoms, pos) && n <= |atoms|
    ensures |t| == n + 1 && forall i :: 0 <= i <= n ==> t[i] == Expanded(atoms, mg, cyc, pos, i)
  {
    seq(n + 1, i requires 0 <= i <= n => Expanded(atoms, mg, cyc, pos, i))
  }

  lemma StagesGrow(atoms: seq<Molecules.Atom>, mg: seq<Vertex>, cyc: Option<seq<int>>,
                   pos: seq<seq<Point>>, n: nat)
    requires Positions(atoms, pos) && n <= |atoms|
    ensures var t := Stages(atoms, mg, cyc, pos, n);
      forall i :: 0 <= i < n ==> GrowsBy(atoms, mg, cyc, t[i], t[i + 1], i)
  {
    var t := Stages(atoms, mg, cyc, pos, n);
    forall i | 0 <= i < n
      ensures GrowsBy(atoms, mg, cyc, t[i], t[i + 1], i)
    {
      var steps := AtomSteps(atoms, mg, cyc, pos, i);
      AtomStepsFlags(atoms, mg, cyc, pos, i);
      assert t[i + 1] == PlacedAll(t[i], steps, i);
      if Grown(atoms, mg, cyc, t[i], i) {
        GrownPlaced(atoms, mg, cyc, t[i], steps, i);
      } else {
        PlacedAllAtoms(t[i].atoms, steps, i);
      }
    }
  }

  /** Along the stages, from an empty shell, Grown holds and SHL_nbAtom is TotalPoints. */
  lemma {:induction false} StagesFacts(atoms: seq<Molecules.Atom>, mg: seq<Vertex>, cyc: Option<seq<int>>,
                                       t: seq<ShellState>, n: nat)
    requires n < |t| && n <= |atoms| && t[0] == ShellState([], [], [])
    requires forall i :: 0 <= i < n ==> GrowsBy(atoms, mg, cyc, t[i], t[i + 1], i)
    ensures AtomCount(t[n].atoms) == TotalPoints(atoms, n) && Grown(atoms, mg, cyc, t[n], n)
  {
    if n > 0 {
      StagesFacts(atoms, mg, cyc, t, n - 1);
      assert GrowsBy(atoms, mg, cyc, t[n - 1], t[n], n - 1);
    } else {
      assert Bare([]) && GraphOk([]) && Packed([]);
    }
  }

  /** After the atom loop over the first n atoms, SHL_nbAtom is the number of points their
      cases add, and Grown holds. */
  lemma ExpandedFacts(atoms: seq<Molecules.Atom>, mg: seq<Vertex>, cyc: Option<seq<int>>,
                      pos: seq<seq<Point>>, n: nat)
    requires Positions(atoms, pos) && n <= |atoms|
    ensures var e := Expanded(atoms, mg, cyc, pos, n);
      AtomCount(e.atoms) == TotalPoints(atoms, n) && Grown(atoms, mg, cyc, e, n)
  {
    var t := Stages(atoms, mg, cyc, pos, n);
    StagesGrow(atoms, mg, cyc, pos, n);
    StagesFacts(atoms, mg, cyc, t, n);
  }

  /*********************************************************************************************
   * The edge loop of expansion
   *********************************************************************************************/

  /** The points x and y have the same parent, or their parents are bonded in the molecule's
      graph mg, looked up from the parent of x. */
  ghost predicate Linked(mg: seq<Vertex>, atoms: seq<ShellAtom>, x: int, y: int)
  {
    0 <= x < |atoms| && 0 <= y < |atoms| &&
    (atoms[x].parent == atoms[y].parent || Adjacent(mg, atoms[x].parent, atoms[y].parent))
  }

  /** What the edge loop may rely on: a well-formed graph as the atom loop leaves it, whose
      vertices are points in use with a parent that is a vertex of mg. */
  ghost predicate Scannable(mg: seq<Vertex>, atoms: seq<ShellAtom>, vs: seq<Vertex>)
  {
    GraphOk(vs) && Bare(vs) &&
    forall x :: HasVertex(vs, x) ==> 0 <= x < |atoms| && Used(atoms[x]) && HasVertex(mg, atoms[x].parent)
  }

  /** The pair of slots (p, q) comes before (i, j) in the order the loop visits pairs. */
  predicate Before(p: nat, q: nat, i: nat, j: nat)
  {
    p < i || (p == i && q < j)
  }

  /** Once the loop has reached the pair (i, j), the slots k and q are different slots among
      the first FirstUnused(vs0) of the graph vs0 the loop started from, and their pair, taken
      in slot order, was visited and linked. */
  ghost predicate Visited(mg: seq<Vertex>, atoms: seq<ShellAtom>, vs0: seq<Vertex>, k: nat, q: nat, i: nat, j: nat)
  {
    k < FirstUnused(vs0) && q < FirstUnused(vs0) && k != q && k < |vs0| && q < |vs0| &&
    if k < q then Before(k, q, i, j) && Linked(mg, atoms, vs0[k].id, vs0[q].id)
    else Before(q, k, i, j) && Linked(mg, atoms, vs0[q].id, vs0[k].id)
  }

  /** Once the loop has reached the pair (i, j), y is in the buffer of slot k: y is the id of a
      slot visited with k. */
  ghost predicate Wanted(mg: seq<Vertex>, atoms: seq<ShellAtom>, vs0: seq<Vertex>, k: nat, y: int, i: nat, j: nat)
  {
    y != FREE && 0 <= IndexOfVertex(vs0, y) && Visited(mg, atoms, vs0, k, IndexOfVertex(vs0, y), i, j)
  }

  /** Visiting the pair (i, j) visits exactly that pair. */
  lemma VisitedNext(mg: seq<Vertex>, atoms: seq<ShellAtom>, vs0: seq<Vertex>, i: nat, j: nat, k: nat, q: nat)
    requires i < j < FirstUnused(vs0) && j < |vs0|
    ensures Visited(mg, atoms, vs0, k, q, i, j + 1) <==>
      Visited(mg, atoms, vs0, k, q, i, j) ||
      (Linked(mg, atoms, vs0[i].id, vs0[j].id) && ((k == i && q == j) || (k == j && q == i)))
  {
  }

  /** The graph when the loop reaches the pair (i, j): the slots of vs0 with the same ids, and
      in every buffer exactly the wanted neighbours. */
  ghost predicate EdgesSoFar(vs: seq<Vertex>, mg: seq<Vertex>, atoms: seq<ShellAtom>, vs0: seq<Vertex>, i: nat, j: nat)
  {
    |vs| == |vs0| && (forall k :: 0 <= k < |vs| ==> vs[k].id == vs0[k].id) && AllWanted(vs, mg, atoms, vs0, i, j)
  }

  /** Every buffer of vs holds exactly the wanted neighbours. */
  ghost predicate AllWanted(vs: seq<Vertex>, mg: seq<Vertex>, atoms: seq<ShellAtom>, vs0: seq<Vertex>, i: nat, j: nat)
  {
    forall k, y :: 0 <= k < |vs| ==> (y in Nbrs(vs[k]) <==> Wanted(mg, atoms, vs0, k, y, i, j))
  }

  /** Before the loop, nothing is wanted. */
  lemma EdgesStart(mg: seq<Vertex>, atoms: seq<ShellAtom>, vs0: seq<Vertex>, i: nat)
    requires Scannable(mg, atoms, vs0) && i == 0
    ensures EdgesSoFar(vs0, mg, atoms, vs0, i, i + 1)
  {
    forall k, y | 0 <= k < |vs0|
      ensures y in Nbrs(vs0[k]) <==> Wanted(mg, atoms, vs0, k, y, i, i + 1)
    {
      assert vs0[k].nbhd == [];
    }
  }

  /** Visiting the pair (i, j) adds exactly its two directions to what is wanted, when the
      pair is linked. */
  lemma WantedNext(mg: seq<Vertex>, atoms: seq<ShellAtom>, vs0: seq<Vertex>, i: nat, j: nat, k: nat, y: int)
    requires UniqueIds(vs0) && i < j < FirstUnused(vs0) && j < |vs0|
    ensures var a, b := vs0[i].id, vs0[j].id;
      Wanted(mg, atoms, vs0, k, y, i, j + 1) <==>
      Wanted(mg, atoms, vs0, k, y, i, j) ||
      (Linked(mg, atoms, a, b) && ((k == i && y == b) || (k == j && y == a)))
  {
    var a, b := vs0[i].id, vs0[j].id;
    assert a != FREE && b != FREE;
    assert IndexOfVertex(vs0, a) == i && IndexOfVertex(vs0, b) == j;
    var q := IndexOfVertex(vs0, y);
    if 0 <= q {
      assert vs0[q].id == y;
      VisitedNext(mg, atoms, vs0, i, j, k, q);
    }
  }

  /** GPH_addEdge of a missing edge puts each end in the other's buffer and nothing else. */
  lemma AddedEdgeMember(vs: seq<Vertex>, a: int, b: int, k: nat, y: int)
    requires GraphOk(vs) && HasVertex(vs, a) && HasVertex(vs, b) && a != b && !Adjacent(vs, a, b) && k < |vs|
    ensures var r := AddedEdge(vs, a, b);
      k < |r| && (y in Nbrs(r[k]) <==>
        y in Nbrs(vs[k]) || (k == IndexOfVertex(vs, a) && y == b) || (k == IndexOfVertex(vs, b) && y == a))
  {
    assert b !in Nbrs(vs[IndexOfVertex(vs, a)]);
    assert a !in Nbrs(vs[IndexOfVertex(vs, b)]);
    AddEdgeSlot(vs, a, b, k);
  }

  /** GPH_addEdge of a missing edge keeps the graph well formed and changes no id. */
  lemma AddedEdgeShape(vs: seq<Vertex>, a: int, b: int)
    requires GraphOk(vs) && HasVertex(vs, a) && HasVertex(vs, b) && a != b && !Adjacent(vs, a, b)
    ensures var r := AddedEdge(vs, a, b);
      GraphOk(r) && |r| == |vs| && forall k :: 0 <= k < |vs| ==> r[k].id == vs[k].id
  {
    AddEdgeFrame(vs, a, b);
    AddEdgeOk(vs, a, b);
  }

  /** A graph r that differs from vs only by the edge of the linked pair (i, j) is as wanted
      once the pair is visited. */
  lemma EdgeJoined(vs: seq<Vertex>, r: seq<Vertex>, mg: seq<Vertex>, atoms: seq<ShellAtom>, vs0: seq<Vertex>, i: nat, j: nat)
    requires UniqueIds(vs0) && i < j < FirstUnused(vs0) && j < |vs0| && EdgesSoFar(vs, mg, atoms, vs0, i, j)
    requires Linked(mg, atoms, vs0[i].id, vs0[j].id)
    requires |r| == |vs| && forall k :: 0 <= k < |r| ==> r[k].id == vs[k].id
    requires forall k, y :: 0 <= k < |r| ==>
      (y in Nbrs(r[k]) <==> y in Nbrs(vs[k]) || (k == i && y == vs0[j].id) || (k == j && y == vs0[i].id))
    ensures EdgesSoFar(r, mg, atoms, vs0, i, j + 1)
  {
    assert |r| == |vs0| && forall k :: 0 <= k < |r| ==> r[k].id == vs0[k].id;
    forall k, y | 0 <= k < |r|
      ensures y in Nbrs(r[k]) <==> Wanted(mg, atoms, vs0, k, y, i, j + 1)
    {
      WantedNext(mg, atoms, vs0, i, j, k, y);
    }
  }

  /** A linked pair (i, j) gets its edge, which it did not have. */
  lemma EdgeAdded(vs: seq<Vertex>, mg: seq<Vertex>, atoms: seq<ShellAtom>, vs0: seq<Vertex>, i: nat, j: nat)
    requires UniqueIds(vs0) && i < j < FirstUnused(vs0) && j < |vs0| && EdgesSoFar(vs, mg, atoms, vs0, i, j)
    requires GraphOk(vs) && Linked(mg, atoms, vs0[i].id, vs0[j].id)
    ensures var r := AddedEdge(vs, vs0[i].id, vs0[j].id);
      EdgesSoFar(r, mg, atoms, vs0, i, j + 1) && GraphOk(r)
  {
    var a, b := vs0[i].id, vs0[j].id;
    IndexOfSameIds(vs0, vs, a);
    IndexOfSameIds(vs0, vs, b);
    assert IndexOfVertex(vs, a) == i && IndexOfVertex(vs, b) == j;
    assert !Wanted(mg, atoms, vs0, i, b, i, j);
    var r := AddedEdge(vs, a, b);
    AddedEdgeShape(vs, a, b);
    forall k, y | 0 <= k < |r|
      ensures y in Nbrs(r[k]) <==> y in Nbrs(vs[k]) || (k == i && y == b) || (k == j && y == a)
    {
      AddedEdgeMember(vs, a, b, k, y);
    }
    EdgeJoined(vs, r, mg, atoms, vs0, i, j);
  }

  /** A pair (i, j) that is not linked changes nothing that is wanted. */
  lemma EdgeSkipped(vs: seq<Vertex>, mg: seq<Vertex>, atoms: seq<ShellAtom>, vs0: seq<Vertex>, i: nat, j: nat)
    requires UniqueIds(vs0) && i < j < FirstUnused(vs0) && j < |vs0| && EdgesSoFar(vs, mg, atoms, vs0, i, j)
    requires !Linked(mg, atoms, vs0[i].id, vs0[j].id)
    ensures EdgesSoFar(vs, mg, atoms, vs0, i, j + 1)
  {
    forall k, y | 0 <= k < |vs|
      ensures y in Nbrs(vs[k]) <==> Wanted(mg, atoms, vs0, k, y, i, j + 1)
    {
      WantedNext(mg, atoms, vs0, i, j, k, y);
    }
  }

  /** The end of a row: once j has reached FirstUnused, the graph is as wanted at the start of
      the next row. */
  lemma NextRow(vs: seq<Vertex>, mg: seq<Vertex>, atoms: seq<ShellAtom>, vs0: seq<Vertex>, i: nat)
    requires i < FirstUnused(vs0) && EdgesSoFar(vs, mg, atoms, vs0, i, FirstUnused(vs0))
    ensures EdgesSoFar(vs, mg, atoms, vs0, i + 1, i + 2)
  {
    forall k, y | 0 <= k < |vs|
      ensures Wanted(mg, atoms, vs0, k, y, i, FirstUnused(vs0)) <==> Wanted(mg, atoms, vs0, k, y, i + 1, i + 2)
    {
    }
  }

  /** After the loops, the rule for one pair of vertices of the graph the scan started from. */
  lemma PairRule(vs: seq<Vertex>, mg: seq<Vertex>, atoms: seq<ShellAtom>, vs0: seq<Vertex>, x: int, y: int)
    requires Bare(vs0) && UniqueIds(vs0)
    requires EdgesSoFar(vs, mg, atoms, vs0, FirstUnused(vs0), FirstUnused(vs0) + 1)
    requires HasVertex(vs0, x) && HasVertex(vs0, y) && IndexOfVertex(vs0, x) < IndexOfVertex(vs0, y)
    ensures Adjacent(vs, x, y) <==> Linked(mg, atoms, x, y)
    ensures Adjacent(vs, y, x) <==> Linked(mg, atoms, x, y)
  {
    var d := FirstUnused(vs0);
    var p, q := IndexOfVertex(vs0, x), IndexOfVertex(vs0, y);
    assert vs0[p].id == x && vs0[q].id == y;
    IndexOfSameIds(vs0, vs, x);
    IndexOfSameIds(vs0, vs, y);
    assert y in Nbrs(vs[p]) <==> Wanted(mg, atoms, vs0, p, y, d, d + 1);
    assert x in Nbrs(vs[q]) <==> Wanted(mg, atoms, vs0, q, x, d, d + 1);
  }

  /** After the loops, a bond joins two distinct vertices of the graph the scan started from. */
  lemma BondEnds(vs: seq<Vertex>, mg: seq<Vertex>, atoms: seq<ShellAtom>, vs0: seq<Vertex>, x: int, y: int)
    requires Bare(vs0) && UniqueIds(vs0)
    requires EdgesSoFar(vs, mg, atoms, vs0, FirstUnused(vs0), FirstUnused(vs0) + 1)
    requires Adjacent(vs, x, y)
    ensures HasVertex(vs0, x) && HasVertex(vs0, y) && x != y
  {
    var d := FirstUnused(vs0);
    IndexOfSameIds(vs0, vs, x);
    var p := IndexOfVertex(vs, x);
    assert Wanted(mg, atoms, vs0, p, y, d, d + 1);
    assert vs0[p].id == x;
  }

  /** When the loops are over, the graph is bonded as Bonded says. */
  lemma EdgeRule(vs: seq<Vertex>, mg: seq<Vertex>, atoms: seq<ShellAtom>, vs0: seq<Vertex>, d: nat)
    requires Bare(vs0) && UniqueIds(vs0) && d == FirstUnused(vs0)
    requires EdgesSoFar(vs, mg, atoms, vs0, d, d + 1)
    ensures Bonded(vs, mg, atoms, vs0)
  {
    forall x
      ensures HasVertex(vs, x) <==> HasVertex(vs0, x)
    {
      IndexOfSameIds(vs0, vs, x);
    }
    forall x, y | HasVertex(vs0, x) && HasVertex(vs0, y) && IndexOfVertex(vs0, x) < IndexOfVertex(vs0, y)
      ensures (Adjacent(vs, x, y) <==> Linked(mg, atoms, x, y)) && (Adjacent(vs, y, x) <==> Linked(mg, atoms, x, y))
    {
      PairRule(vs, mg, atoms, vs0, x, y);
    }
    forall x, y | Adjacent(vs, x, y)
      ensures HasVertex(vs0, x) && HasVertex(vs0, y) && x != y
    {
      BondEnds(vs, mg, atoms, vs0, x, y);
    }
  }

  /** The two vertices a pass of the inner loop looks at are vertices of the graph the scan
      started from, made for points whose parents are vertices of the molecule. */
  lemma Anchored(vs: seq<Vertex>, mg: seq<Vertex>, atoms: seq<ShellAtom>, vs0: seq<Vertex>, i: nat, j: nat)
    requires Scannable(mg, atoms, vs0) && i < j < FirstUnused(vs0) && EdgesSoFar(vs, mg, atoms, vs0, i, j)
    ensures j < |vs| && vs[i].id == vs0[i].id && vs[j].id == vs0[j].id
    ensures 0 <= vs0[i].id < |atoms| && 0 <= vs0[j].id < |atoms|
    ensures HasVertex(mg, atoms[vs0[i].id].parent) && HasVertex(mg, atoms[vs0[j].id].parent)
  {
    assert HasVertex(vs0, vs0[i].id) && HasVertex(vs0, vs0[j].id);
  }

  /** The scans of the edge loops stop at the first unused slot of the graph they started from. */
  lemma StopsAtUnused(vs: seq<Vertex>, mg: seq<Vertex>, atoms: seq<ShellAtom>, vs0: seq<Vertex>, i: nat, j: nat, k: nat)
    requires EdgesSoFar(vs, mg, atoms, vs0, i, j) && k <= FirstUnused(vs0)
    requires !(k < |vs| && vs[k].id != FREE)
    ensures k == FirstUnused(vs0)
  {
  }

  /** Before that slot, they go on. */
  lemma GoesOn(vs: seq<Vertex>, mg: seq<Vertex>, atoms: seq<ShellAtom>, vs0: seq<Vertex>, i: nat, j: nat, k: nat)
    requires EdgesSoFar(vs, mg, atoms, vs0, i, j) && k <= FirstUnused(vs0)
    requires k < |vs| && vs[k].id != FREE
    ensures k < FirstUnused(vs0)
  {
    assert vs[k].id == vs0[k].id;
  }

  /** The scan state depends on the scan position only through its value. */
  lemma Shift(vs: seq<Vertex>, mg: seq<Vertex>, atoms: seq<ShellAtom>, vs0: seq<Vertex>, i: nat, j: nat, next: nat)
    requires EdgesSoFar(vs, mg, atoms, vs0, i, j + 1) && next == j + 1
    ensures EdgesSoFar(vs, mg, atoms, vs0, i, next)
  {
  }

  /** The same for the outer loop, which moves to the next row. */
  lemma ShiftRow(vs: seq<Vertex>, mg: seq<Vertex>, atoms: seq<ShellAtom>, vs0: seq<Vertex>, i: nat, next: nat)
    requires EdgesSoFar(vs, mg, atoms, vs0, i + 1, i + 2) && next == i + 1
    ensures EdgesSoFar(vs, mg, atoms, vs0, next, next + 1)
  {
  }

  /** One pass of the inner loop keeps the graph well formed and moves the scan one slot on. */
  lemma PairStep(vs: seq<Vertex>, r: seq<Vertex>, mg: seq<Vertex>, atoms: seq<ShellAtom>, vs0: seq<Vertex>, i: nat, j: nat)
    requires UniqueIds(vs0) && i < j < FirstUnused(vs0) && j < |vs0|
    requires GraphOk(vs) && EdgesSoFar(vs, mg, atoms, vs0, i, j)
    requires r == if Linked(mg, atoms, vs0[i].id, vs0[j].id) then AddedEdge(vs, vs0[i].id, vs0[j].id) else vs
    ensures GraphOk(r) && EdgesSoFar(r, mg, atoms, vs0, i, j + 1)
  {
    if Linked(mg, atoms, vs0[i].id, vs0[j].id) {
      EdgeAdded(vs, mg, atoms, vs0, i, j);
    } else {
      EdgeSkipped(vs, mg, atoms, vs0, i, j);
    }
  }

  /** One pass of the inner loop of the edge construction: the vertices in slots i and j are
      bonded when their points share a parent or their parents are bonded in the molecule. */
  method BondPair(m: Molecules.Molecule, s: Shell, i: nat, j: nat, ghost mg: seq<Vertex>, ghost atoms: seq<ShellAtom>, ghost vs0: seq<Vertex>)
    requires m.bond != s.bond && mg == m.bond.vertices && atoms == s.atoms
    requires Scannable(mg, atoms, vs0) && i < j < FirstUnused(vs0)
    requires GraphOk(s.bond.vertices) && EdgesSoFar(s.bond.vertices, mg, atoms, vs0, i, j)
    modifies s.bond
    ensures GraphOk(s.bond.vertices) && EdgesSoFar(s.bond.vertices, mg, atoms, vs0, i, j + 1)
  {
    ghost var vs := s.bond.vertices;
    Anchored(vs, mg, atoms, vs0, i, j);
    var a := s.bond.vertices[i].id;
    var b := s.bond.vertices[j].id;
    var pa := s.atoms[a].parent;
    var pb := s.atoms[b].parent;
    var linked := pa == pb;
    if !linked {
      var c := m.bond.CheckBond(pa, pb);
      linked := c == 1;
    }
    assert linked == Linked(mg, atoms, a, b);
    if linked {
      s.AddBond(a, b);
    }
    PairStep(vs, s.bond.vertices, mg, atoms, vs0, i, j);
  }

  /** The inner loop of the edge construction, for the vertex in slot i: each later vertex, up
      to the first unused slot, is bonded to it when their points are linked. */
  method BondFrom(m: Molecules.Molecule, s: Shell, i: nat, ghost mg: seq<Vertex>, ghost atoms: seq<ShellAtom>, ghost vs0: seq<Vertex>)
    requires m.bond != s.bond && mg == m.bond.vertices && atoms == s.atoms
    requires Scannable(mg, atoms, vs0) && i < FirstUnused(vs0)
    requires GraphOk(s.bond.vertices) && EdgesSoFar(s.bond.vertices, mg, atoms, vs0, i, i + 1)
    modifies s.bond
    ensures GraphOk(s.bond.vertices) && EdgesSoFar(s.bond.vertices, mg, atoms, vs0, i, FirstUnused(vs0))
  {
    var j := i + 1;
    Shift(s.bond.vertices, mg, atoms, vs0, i, i, j);
    while j < |s.bond.vertices| && s.bond.vertices[j].id != FREE
      invariant i < j <= FirstUnused(vs0) <= |vs0|
      invariant GraphOk(s.bond.vertices) && EdgesSoFar(s.bond.vertices, mg, atoms, vs0, i, j)
      decreases |vs0| - j
    {
      BondPair(m, s, i, j, mg, atoms, vs0);
      ghost var j0 := j;
      j := j + 1;
      Shift(s.bond.vertices, mg, atoms, vs0, i, j0, j);
    }
    StopsAtUnused(s.bond.vertices, mg, atoms, vs0, i, j, j);
  }

  /** The edge loop of expansion: every pair of vertices before the first unused slot, in slot
      order, is bonded when the points are linked, which leaves the graph as Bonded says. */
  method BondDependencies(m: Molecules.Molecule, s: Shell, ghost mg: seq<Vertex>, ghost atoms: seq<ShellAtom>)
    requires m.bond != s.bond && mg == m.bond.vertices && atoms == s.atoms && Scannable(mg, atoms, s.bond.vertices)
    modifies s.bond
    ensures GraphOk(s.bond.vertices) && Bonded(s.bond.vertices, mg, atoms, old(s.bond.vertices))
  {
    ghost var vs0 := s.bond.vertices;
    var i := 0;
    EdgesStart(mg, atoms, vs0, i);
    while i < |s.bond.vertices| && s.bond.vertices[i].id != FREE
      invariant i <= FirstUnused(vs0) <= |vs0|
      invariant GraphOk(s.bond.vertices) && EdgesSoFar(s.bond.vertices, mg, atoms, vs0, i, i + 1)
      decreases |vs0| - i
    {
      GoesOn(s.bond.vertices, mg, atoms, vs0, i, i + 1, i);
      BondFrom(m, s, i, mg, atoms, vs0);
      NextRow(s.bond.vertices, mg, atoms, vs0, i);
      ghost var i0 := i;
      i := i + 1;
      ShiftRow(s.bond.vertices, mg, atoms, vs0, i0, i);
    }
    StopsAtUnused(s.bond.vertices, mg, atoms, vs0, i, i + 1, i);
    EdgeRule(s.bond.vertices, mg, atoms, vs0, i);
  }

  /*********************************************************************************************
   * expansion
   *********************************************************************************************/

  /** The ring flag only matters to the perpendicular points of a steric-3 atom. */
  lemma PlanRing(c: Case, ligands: int, vertex: bool, ring: bool, pos: seq<Point>)
    requires |pos| == PointCount(c, ligands) && c != Steric3
    ensures Plan(c, ligands, vertex, ring, pos) == Plan(c, ligands, vertex, false, pos)
  {
  }

  /** Placing no points leaves the shell as it is. */
  lemma PlacedNone(st: ShellState, parent: nat)
    ensures PlacedAll(st, [], parent) == st
  {
  }

  /** Expanded grows by the steps of the atom just processed. */
  lemma ExpandedNext(atoms: seq<Molecules.Atom>, mg: seq<Vertex>, cyc: Option<seq<int>>,
                     pos: seq<seq<Point>>, i: nat, next: nat)
    requires Positions(atoms, pos) && i < |atoms| && next == i + 1
    ensures Expanded(atoms, mg, cyc, pos, next) ==
      PlacedAll(Expanded(atoms, mg, cyc, pos, i), AtomSteps(atoms, mg, cyc, pos, i), i)
  {
  }

  /** What the edge loop leaves: the vertices of vs0, and between two of them a bond, in both
      directions, exactly when their points are linked, the parent of the one in the earlier
      slot looked up first; no bond joins a vertex to itself or leaves the vertices of vs0. */
  ghost predicate Bonded(vs: seq<Vertex>, mg: seq<Vertex>, atoms: seq<ShellAtom>, vs0: seq<Vertex>)
  {
    (forall x :: HasVertex(vs, x) <==> HasVertex(vs0, x)) &&
    (forall x, y :: HasVertex(vs0, x) && HasVertex(vs0, y) && IndexOfVertex(vs0, x) < IndexOfVertex(vs0, y) ==>
       (Adjacent(vs, x, y) <==> Linked(mg, atoms, x, y)) && (Adjacent(vs, y, x) <==> Linked(mg, atoms, x, y))) &&
    (forall x, y :: Adjacent(vs, x, y) ==> HasVertex(vs0, x) && HasVertex(vs0, y) && x != y)
  }

  /** One turn of the atom loop: the if-chain of expansion picks the case of atom i. */
  method ExpandAtom(m: Molecules.Molecule, s: Shell, i: nat, pos: seq<seq<Point>>)
    requires m.bond != s.bond && Positions(m.atoms, pos) && i < |m.atoms|
    requires m.cycle.Some? || CaseOf(m.atoms[i]) != Steric3
    modifies s, s.bond
    ensures s.State() == old(PlacedAll(s.State(), AtomSteps(m.atoms, m.bond.vertices, m.cycle, pos, i), i))
  {
    ghost var st := s.State();
    ghost var steps := AtomSteps(m.atoms, m.bond.vertices, m.cycle, pos, i);
    ghost var vertex, ring := HasVertex(m.bond.vertices, i), m.cycle.Some? && i in Ids(m.cycle.value);
    var a := m.atoms[i];
    if a.ligands == 1 && a.lonePairs == 1 {
      PlanRing(AX1E1, a.ligands, vertex, ring, pos[i]);
      ExpandAX1E1(m, s, i, pos[i]);
    } else if Molecules.Steric(a) == 3 {
      ExpandSteric3(m, s, i, pos[i]);
    } else if Molecules.Steric(a) == 4 {
      PlanRing(Steric4, a.ligands, vertex, ring, pos[i]);
      ExpandSteric4(m, s, i, pos[i]);
    } else if a.ligands == 2 && a.lonePairs == 0 {
      PlanRing(AX2E0, a.ligands, vertex, ring, pos[i]);
      ExpandAX2E0(m, s, i, pos[i]);
    } else {
      PlacedNone(st, i);
    }
  }

  /** The atom loop of expansion: from an empty shell, the shell Expanded describes. */
  method ExpandAtoms(m: Molecules.Molecule, s: Shell, pos: seq<seq<Point>>)
    requires m.bond != s.bond && s.atoms == [] && s.cycle == [] && s.bond.vertices == []
    requires Positions(m.atoms, pos)
    requires m.cycle.Some? || forall i :: 0 <= i < |m.atoms| ==> CaseOf(m.atoms[i]) != Steric3
    modifies s, s.bond
    ensures s.State() == Expanded(m.atoms, m.bond.vertices, m.cycle, pos, |m.atoms|)
  {
    ghost var mg := m.bond.vertices;
    var i := 0;
    while i < |m.atoms|
      invariant i <= |m.atoms| && m.bond.vertices == mg
      invariant s.State() == Expanded(m.atoms, mg, m.cycle, pos, i)
    {
      ExpandAtom(m, s, i, pos);
      ghost var i0 := i;
      i := i + 1;
      ExpandedNext(m.atoms, mg, m.cycle, pos, i0, i);
    }
  }

  /** expansion: from an empty shell, the atom loop gives the shell Expanded describes, with
      as many points as the cases of the atoms add; the edge loop then bonds its vertices as
      Bonded says. The positions of the points are parameters. */
  method Expand(m: Molecules.Molecule, s: Shell, pos: seq<seq<Point>>)
    requires m.bond != s.bond && s.atoms == [] && s.cycle == [] && s.bond.vertices == []
    requires Positions(m.atoms, pos)
    requires m.cycle.Some? || forall i :: 0 <= i < |m.atoms| ==> CaseOf(m.atoms[i]) != Steric3
    modifies s, s.bond
    ensures var e := Expanded(m.atoms, m.bond.vertices, m.cycle, pos, |m.atoms|);
      s.atoms == e.atoms && s.cycle == e.cycle &&
      AtomCount(s.atoms) == TotalPoints(m.atoms, |m.atoms|) && Grown(m.atoms, m.bond.vertices, m.cycle, e, |m.atoms|) &&
      GraphOk(s.bond.vertices) && Bonded(s.bond.vertices, m.bond.vertices, s.atoms, e.vertices)
  {
    ExpandAtoms(m, s, pos);
    ghost var e := Expanded(m.atoms, m.bond.vertices, m.cycle, pos, |m.atoms|);
    ExpandedFacts(m.atoms, m.bond.vertices, m.cycle, pos, |m.atoms|);
    BondDependencies(m, s, m.bond.vertices, s.atoms);
  }
}
