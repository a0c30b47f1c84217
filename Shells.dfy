/**
 * The shell Shell_t of src/structureShl.c: a slot array of atoms, each with a flag
 * (NOT_DEF_F marks an unused slot), coordinates, a parent atom of the substrate and a neighbour
 * list, together with the list of atoms on an aromatic cycle and the dependency graph `bond`.
 *
 * The functions below describe each operation on the atom slots and the cycle list; the class
 * Shell carries the source's loops and is proved against them. Neighbour lists are IdLists
 * buffers; their edge-level behaviour is the one of module Adjacency.
 */
module Shells {
  import opened Constants
  import opened Options
  import opened IdLists
  import opened Graphs
  import GraphCopy
  import opened Points
  import opened Degrees
  import opened Adjacency

  datatype ShellAtom = ShellAtom(flag: int, coords: Point, parent: int, nbhd: seq<int>)

  /** An atom as SHL_initAtom leaves it: unused, at the origin, no parent, no neighbours. */
  const InitAtom: ShellAtom := ShellAtom(NOT_DEF_F, Point(0.0, 0.0, 0.0), -1, [])

  /** Everything a shell holds, for the specification of the operations that touch more than
      the atoms. */
  datatype ShellState = ShellState(atoms: seq<ShellAtom>, cycle: seq<int>, vertices: seq<Vertex>)

  predicate Used(a: ShellAtom)
  {
    a.flag != NOT_DEF_F
  }

  /** The neighbour buffers of the atoms. */
  function Lists(atoms: seq<ShellAtom>): (ls: seq<seq<int>>)
    ensures |ls| == |atoms| && forall i :: 0 <= i < |atoms| ==> ls[i] == atoms[i].nbhd
  {
    seq(|atoms|, i requires 0 <= i < |atoms| => atoms[i].nbhd)
  }

  /** The atoms with their neighbour buffers replaced by ls. */
  function WithLists(atoms: seq<ShellAtom>, ls: seq<seq<int>>): (r: seq<ShellAtom>)
    requires |ls| == |atoms|
    ensures |r| == |atoms| && forall i :: 0 <= i < |atoms| ==> r[i] == atoms[i].(nbhd := ls[i])
  {
    seq(|atoms|, i requires 0 <= i < |atoms| => atoms[i].(nbhd := ls[i]))
  }

  /*********************************************************************************************
   * Atom slots
   *********************************************************************************************/

  /** Number of used slots (SHL_nbAtom). */
  function AtomCount(atoms: seq<ShellAtom>): nat
  {
    if atoms == [] then 0
    else AtomCount(atoms[..|atoms| - 1]) + (if Used(atoms[|atoms| - 1]) then 1 else 0)
  }

  /** Index of the first unused slot, |atoms| when there is none (the scan of
      SHL_getIndiceFreeAtom). */
  function FirstUnusedAtom(atoms: seq<ShellAtom>): (r: nat)
    ensures r <= |atoms|
    ensures r < |atoms| ==> !Used(atoms[r])
    ensures forall k :: 0 <= k < r ==> Used(atoms[k])
  {
    if atoms == [] || !Used(atoms[0]) then 0 else 1 + FirstUnusedAtom(atoms[1..])
  }

  /** The slots after SHL_addAllocAtom: REALLOCSIZE fresh atoms appended. */
  function AtomsGrown(atoms: seq<ShellAtom>): seq<ShellAtom>
  {
    atoms + seq(REALLOCSIZE, _ => InitAtom)
  }

  /** The slots after SHL_getIndiceFreeAtom: grown only when no slot is unused. */
  function WithFreeAtom(atoms: seq<ShellAtom>): (r: seq<ShellAtom>)
    ensures FirstUnusedAtom(atoms) < |r|
  {
    if FirstUnusedAtom(atoms) < |atoms| then atoms else AtomsGrown(atoms)
  }

  /** The slots after SHL_addAtom(coords, parent): the slot SHL_getIndiceFreeAtom returns is
      flagged SHELL_F and gets the coordinates and the parent. */
  function AtomAdded(atoms: seq<ShellAtom>, coords: Point, parent: int): seq<ShellAtom>
  {
    var w, f := WithFreeAtom(atoms), FirstUnusedAtom(atoms);
    w[f := w[f].(flag := SHELL_F, coords := coords, parent := parent)]
  }

  /*********************************************************************************************
   * Edges
   *********************************************************************************************/

  /** The atoms after SHL_addEdge(id1, id2): the edge insertion of Adjacency, which does
      nothing unless both ids are slots and distinct. */
  function EdgeAdded(atoms: seq<ShellAtom>, id1: int, id2: int): seq<ShellAtom>
  {
    WithLists(atoms, Joined(Lists(atoms), id1, id2))
  }

  /** The atoms after SHL_removeEdge(id1, id2): nothing unless both ids are slots. */
  function EdgeRemoved(atoms: seq<ShellAtom>, id1: int, id2: int): seq<ShellAtom>
  {
    if 0 <= id1 < |atoms| && 0 <= id2 < |atoms| then WithLists(atoms, Separated(Lists(atoms), id1, id2))
    else atoms
  }

  /*********************************************************************************************
   * Atom removal (SHL_removeAtom)
   *********************************************************************************************/

  /** The cycle list after the first step of SHL_removeAtom. */
  function CycleWithout(cycle: seq<int>, id: int): seq<int>
  {
    if id in Ids(cycle) then Removed(cycle, id) else cycle
  }

  /** The neighbour loop of SHL_removeAtom from slot i of the buffer of id on: every entry that
      is not FREE names an atom whose list loses id. None when an entry is not a slot. */
  function Detached(atoms: seq<ShellAtom>, id: nat, i: nat): (r: Option<seq<ShellAtom>>)
    requires id < |atoms| && i <= |atoms[id].nbhd|
    ensures r.Some? ==> |r.value| == |atoms|
    decreases |atoms[id].nbhd| - i
  {
    if i == |atoms[id].nbhd| then Some(atoms)
    else
      var x := atoms[id].nbhd[i];
      if x == FREE then Detached(atoms, id, i + 1)
      else if x < 0 || x >= |atoms| then None
      else Detached(atoms[x := atoms[x].(nbhd := Removed(atoms[x].nbhd, id))], id, i + 1)
  }

  /** The shell after SHL_removeAtom(id): id leaves the cycle list, every list it is in and the
      graph, and its slot is reset. Nothing changes when id is not a slot. */
  function AtomRemoved(st: ShellState, id: nat): (r: Option<ShellState>)
    ensures r.Some? ==> |r.value.atoms| == |st.atoms|
  {
    if id >= |st.atoms| then Some(st)
    else
      var d := Detached(st.atoms, id, 0);
      var g := RemovedVertex(st.vertices, id);
      if d.None? || g.None? then None
      else Some(ShellState(d.value[id := InitAtom], CycleWithout(st.cycle, id), g.value))
  }

  /*********************************************************************************************
   * Properties of the slots and edges
   *********************************************************************************************/

  lemma {:induction false} AtomCountUpdate(atoms: seq<ShellAtom>, f: nat, a: ShellAtom)
    requires f < |atoms|
    ensures AtomCount(atoms[f := a]) ==
      AtomCount(atoms) - (if Used(atoms[f]) then 1 else 0) + (if Used(a) then 1 else 0)
    decreases |atoms|
  {
    var n := |atoms| - 1;
    var b := atoms[f := a];
    assert b[..n] == if f < n then atoms[..n][f := a] else atoms[..n];
    if f < n {
      AtomCountUpdate(atoms[..n], f, a);
    }
  }

  lemma {:induction false} AtomCountGrown(atoms: seq<ShellAtom>, m: nat)
    ensures AtomCount(atoms + seq(m, _ => InitAtom)) == AtomCount(atoms)
  {
    var b := atoms + seq(m, _ => InitAtom);
    if m > 0 {
      assert b[..|b| - 1] == atoms + seq(m - 1, _ => InitAtom);
      assert b[|b| - 1] == InitAtom;
      AtomCountGrown(atoms, m - 1);
    } else {
      assert b == atoms;
    }
  }

  /** SHL_addAtom takes the first unused slot, growing by REALLOCSIZE slots only when there is
      none; the new atom is used, the other slots are unchanged and SHL_nbAtom rises by one. */
  lemma AddAtomFacts(atoms: seq<ShellAtom>, coords: Point, parent: int)
    ensures var r, f := AtomAdded(atoms, coords, parent), FirstUnusedAtom(atoms);
      |r| == (if f < |atoms| then |atoms| else |atoms| + REALLOCSIZE) &&
      r[f].flag == SHELL_F && r[f].coords == coords && r[f].parent == parent &&
      (forall k :: 0 <= k < |atoms| && k != f ==> r[k] == atoms[k]) &&
      (forall k :: |atoms| <= k < |r| && k != f ==> r[k] == InitAtom) &&
      AtomCount(r) == AtomCount(atoms) + 1
  {
    var w, f := WithFreeAtom(atoms), FirstUnusedAtom(atoms);
    if f == |atoms| {
      AtomCountGrown(atoms, REALLOCSIZE);
    }
    AtomCountUpdate(w, f, w[f].(flag := SHELL_F, coords := coords, parent := parent));
  }

  /** SHL_addEdge of two distinct slots keeps consistent lists consistent and adds exactly the
      two directions of the edge, so no atom ever becomes its own neighbour; only the lists
      change. */
  lemma AddEdgeFacts(atoms: seq<ShellAtom>, id1: int, id2: int)
    requires Consistent(Lists(atoms))
    ensures var r := EdgeAdded(atoms, id1, id2);
      Lists(r) == Joined(Lists(atoms), id1, id2) && Consistent(Lists(r)) &&
      (forall k :: 0 <= k < |r| ==> r[k].(nbhd := atoms[k].nbhd) == atoms[k]) &&
      (forall k, y :: Holds(Lists(r), k, y) <==> (Holds(Lists(atoms), k, y) ||
        (0 <= id1 < |atoms| && 0 <= id2 < |atoms| && id1 != id2 &&
         ((k == id1 && y == id2) || (k == id2 && y == id1)))))
  {
    var r := EdgeAdded(atoms, id1, id2);
    assert Lists(r) == Joined(Lists(atoms), id1, id2);
    if 0 <= id1 < |atoms| && 0 <= id2 < |atoms| && id1 != id2 {
      JoinedConsistent(Lists(atoms), id1, id2);
    }
  }

  /** SHL_addEdge leaves every other atom as it was. */
  lemma EdgeAddedKeeps(atoms: seq<ShellAtom>, id1: int, id2: int, k: nat)
    requires k < |atoms| && k != id1 && k != id2
    ensures |EdgeAdded(atoms, id1, id2)| == |atoms| && EdgeAdded(atoms, id1, id2)[k] == atoms[k]
  {
  }

  /** SHL_removeEdge of two slots keeps consistent lists consistent and removes exactly the two
      directions of the edge. */
  lemma RemoveEdgeFacts(atoms: seq<ShellAtom>, id1: int, id2: int)
    requires Consistent(Lists(atoms))
    ensures var r := EdgeRemoved(atoms, id1, id2);
      Consistent(Lists(r)) && |r| == |atoms| &&
      (forall k :: 0 <= k < |r| ==> r[k].(nbhd := atoms[k].nbhd) == atoms[k]) &&
      (forall k, y :: Holds(Lists(r), k, y) <==> (Holds(Lists(atoms), k, y) &&
        !(0 <= id1 < |atoms| && 0 <= id2 < |atoms| &&
          ((k == id1 && y == id2) || (k == id2 && y == id1)))))
  {
    if 0 <= id1 < |atoms| && 0 <= id2 < |atoms| {
      var r := EdgeRemoved(atoms, id1, id2);
      assert Lists(r) == Separated(Lists(atoms), id1, id2);
      SeparatedConsistent(Lists(atoms), id1, id2);
    }
  }

  /** The neighbour loop of SHL_removeAtom on consistent lists: every neighbour k of id listed
      from slot i on loses id, and nothing else changes. */
  lemma {:induction false} DetachedFrom(atoms: seq<ShellAtom>, id: nat, i: nat)
    requires id < |atoms| && i <= |atoms[id].nbhd|
    requires Packed(atoms[id].nbhd) && NoDup(Ids(atoms[id].nbhd))
    requires forall x :: x in Ids(atoms[id].nbhd) ==> 0 <= x < |atoms| && x != id
    ensures Detached(atoms, id, i).Some?
    ensures var d := Detached(atoms, id, i).value;
      forall k :: 0 <= k < |atoms| ==>
        d[k] == if k in atoms[id].nbhd[i..] then atoms[k].(nbhd := Removed(atoms[k].nbhd, id)) else atoms[k]
    decreases |atoms[id].nbhd| - i
  {
    var nb := atoms[id].nbhd;
    if i < |nb| {
      var x := nb[i];
      assert nb[i..] == [x] + nb[i + 1..];
      if x == FREE {
        DetachedFrom(atoms, id, i + 1);
      } else {
        assert i < FirstFree(nb);
        assert x in Ids(nb);
        var b := atoms[x := atoms[x].(nbhd := Removed(atoms[x].nbhd, id))];
        assert b[id] == atoms[id];
        DetachedFrom(b, id, i + 1);
        PackedOnce(nb, i);
        var d := Detached(atoms, id, i).value;
        forall k | 0 <= k < |atoms|
          ensures d[k] == if k in nb[i..] then atoms[k].(nbhd := Removed(atoms[k].nbhd, id)) else atoms[k]
        {
          if k != x {
            assert (k in nb[i..]) == (k in nb[i + 1..]);
          }
        }
      }
    }
  }

  /** The lists after the neighbour loop of SHL_removeAtom and the reset of the slot are the
      removal of Adjacency. */
  lemma DetachedIsolates(atoms: seq<ShellAtom>, id: nat)
    requires Consistent(Lists(atoms)) && id < |atoms|
    ensures Detached(atoms, id, 0).Some?
    ensures var d := Detached(atoms, id, 0).value;
      Lists(d[id := InitAtom]) == Isolated(Lists(atoms), id) &&
      forall k :: 0 <= k < |atoms| && k != id ==> d[k].(nbhd := atoms[k].nbhd) == atoms[k]
  {
    var ls := Lists(atoms);
    var A := Neighbourhoods(ls);
    var nb := atoms[id].nbhd;
    assert RowOk(A, id);
    DetachedFrom(atoms, id, 0);
    var d := Detached(atoms, id, 0).value;
    assert nb[0..] == nb;
    forall k | 0 <= k < |atoms| && k != id
      ensures d[k].nbhd == Isolated(ls, id)[k]
    {
      if k in nb {
        PackedIn(nb, k);
      } else {
        assert RowOk(A, k);
        IsolatedKeeps(ls, id, k);
      }
    }
    assert Lists(d[id := InitAtom]) == Isolated(ls, id);
  }

  /** SHL_removeAtom on consistent lists is the removal of Adjacency: the lists stay
      consistent and lose exactly the edges at id, the slot is reset, the cycle list loses id
      and the other atoms keep their flags, coordinates and parents. */
  lemma RemoveAtomFacts(st: ShellState, id: nat)
    requires Consistent(Lists(st.atoms)) && id < |st.atoms|
    requires RemovedVertex(st.vertices, id).Some?
    ensures AtomRemoved(st, id).Some?
    ensures var r := AtomRemoved(st, id).value;
      Lists(r.atoms) == Isolated(Lists(st.atoms), id) && Consistent(Lists(r.atoms)) &&
      r.atoms[id] == InitAtom && (NoDup(Ids(st.cycle)) && Packed(st.cycle) ==> id !in Ids(r.cycle)) &&
      r.cycle == CycleWithout(st.cycle, id) && r.vertices == RemovedVertex(st.vertices, id).value &&
      (forall k :: 0 <= k < |st.atoms| && k != id ==> r.atoms[k].(nbhd := st.atoms[k].nbhd) == st.atoms[k]) &&
      (forall k, y :: Holds(Lists(r.atoms), k, y) <==> Holds(Lists(st.atoms), k, y) && k != id && y != id)
  {
    DetachedIsolates(st.atoms, id);
    IsolatedConsistent(Lists(st.atoms), id);
    if id in Ids(st.cycle) {
      RemovedIdsFacts(st.cycle, id);
    }
  }

  /** On any list, LST_removeElement of a present id leaves one occurrence fewer in the scan:
      when the list held it once, it no longer holds it. */
  lemma RemovedIdsFacts(s: seq<int>, id: int)
    requires id in Ids(s)
    ensures NoDup(Ids(s)) && Packed(s) ==> id !in Ids(Removed(s, id))
  {
    if NoDup(Ids(s)) && Packed(s) {
      RemovedIds(s, id);
      DeleteFirstFacts(Ids(s), id);
    }
  }

  /*********************************************************************************************
   * Merging two atoms (SHL_mergeAtom)
   *********************************************************************************************/

  /** The loop of SHL_mergeAtom: SHL_addEdge(eater, x) for every entry x of xs that is not
      FREE. */
  function Absorbed(atoms: seq<ShellAtom>, eater: nat, xs: seq<int>): (r: seq<ShellAtom>)
    ensures |r| == |atoms|
    decreases |xs|
  {
    if xs == [] then atoms
    else Absorbed(if xs[0] != FREE then EdgeAdded(atoms, eater, xs[0]) else atoms, eater, xs[1..])
  }

  /** The flag SHL_mergeAtom leaves on the eater: the larger of the two. */
  function MaxFlag(f: int, g: int): int
  {
    if f < g then g else f
  }

  /** The shell after SHL_mergeAtom(eater, eaten): the eater gets every neighbour of the eaten
      atom, its parent, its cycle membership and the larger flag, then the eaten atom is
      removed. Nothing changes unless both are slots and distinct. */
  function AtomsMerged(st: ShellState, eater: nat, eaten: nat): Option<ShellState>
  {
    if eater < |st.atoms| && eaten < |st.atoms| && eater != eaten then
      AtomRemoved(Absorbing(st, eater, eaten), eaten)
    else Some(st)
  }

  /** SHL_mergeAtom up to its final SHL_removeAtom. */
  function Absorbing(st: ShellState, eater: nat, eaten: nat): (r: ShellState)
    requires eater < |st.atoms| && eaten < |st.atoms|
    ensures |r.atoms| == |st.atoms|
  {
    var a := st.atoms[eaten];
    var b := Absorbed(st.atoms, eater, a.nbhd);
    var c := b[eater := b[eater].(parent := a.parent, flag := MaxFlag(b[eater].flag, b[eaten].flag))];
    var cycle := if eaten in Ids(st.cycle) then Added(st.cycle, eater) else st.cycle;
    ShellState(c, cycle, st.vertices)
  }

  /** The loop of SHL_mergeAtom on consistent lists: the eater is joined to every slot of xs
      other than itself, and only the lists change. */
  lemma {:induction false} AbsorbedFacts(atoms: seq<ShellAtom>, e: nat, xs: seq<int>)
    requires Consistent(Lists(atoms)) && e < |atoms|
    ensures var r := Absorbed(atoms, e, xs);
      Consistent(Lists(r)) &&
      (forall k :: 0 <= k < |r| ==> r[k].(nbhd := atoms[k].nbhd) == atoms[k]) &&
      (forall k, y :: Holds(Lists(r), k, y) <==> (Holds(Lists(atoms), k, y) || JoinedTo(atoms, e, xs, k, y)))
    decreases |xs|
  {
    if xs != [] {
      var x := xs[0];
      var b := if x != FREE then EdgeAdded(atoms, e, x) else atoms;
      AddEdgeFacts(atoms, e, x);
      AbsorbedFacts(b, e, xs[1..]);
      var r := Absorbed(atoms, e, xs);
      assert r == Absorbed(b, e, xs[1..]);
      forall k, y
        ensures Holds(Lists(r), k, y) <==> (Holds(Lists(atoms), k, y) || JoinedTo(atoms, e, xs, k, y))
      {
        JoinedToCons(atoms, b, e, xs, k, y);
      }
    }
  }

  /** The eater is joined to y in slot k by the loop of SHL_mergeAtom over xs. */
  predicate JoinedTo(atoms: seq<ShellAtom>, e: int, xs: seq<int>, k: int, y: int)
  {
    (k == e && y in xs && 0 <= y < |atoms| && y != e) || (y == e && k in xs && 0 <= k < |atoms| && k != e)
  }

  lemma JoinedToCons(atoms: seq<ShellAtom>, b: seq<ShellAtom>, e: int, xs: seq<int>, k: int, y: int)
    requires xs != [] && |b| == |atoms| && 0 <= e < |atoms|
    requires Holds(Lists(b), k, y) <==> (Holds(Lists(atoms), k, y) ||
      (0 <= e < |atoms| && 0 <= xs[0] < |atoms| && e != xs[0] && ((k == e && y == xs[0]) || (k == xs[0] && y == e))))
    ensures (Holds(Lists(b), k, y) || JoinedTo(b, e, xs[1..], k, y)) <==>
      (Holds(Lists(atoms), k, y) || JoinedTo(atoms, e, xs, k, y))
  {
    assert xs == [xs[0]] + xs[1..];
  }

  /** The loop of SHL_mergeAtom leaves every atom other than the eater and the listed ones as
      it was. */
  lemma {:induction false} AbsorbedKeeps(atoms: seq<ShellAtom>, e: nat, k: nat, xs: seq<int>)
    requires k < |atoms| && k != e && k !in xs
    ensures Absorbed(atoms, e, xs)[k] == atoms[k]
    decreases |xs|
  {
    if xs != [] {
      assert k !in xs[1..] by {
        assert xs == [xs[0]] + xs[1..];
      }
      AbsorbedKeeps(if xs[0] != FREE then EdgeAdded(atoms, e, xs[0]) else atoms, e, k, xs[1..]);
    }
  }

  /** The absorbing stage of SHL_mergeAtom on consistent lists. */
  lemma AbsorbingFacts(st: ShellState, eater: nat, eaten: nat)
    requires Consistent(Lists(st.atoms)) && eater < |st.atoms| && eaten < |st.atoms| && eater != eaten
    ensures var m, L := Absorbing(st, eater, eaten), Lists(st.atoms);
      Consistent(Lists(m.atoms)) && m.vertices == st.vertices &&
      m.atoms[eater].parent == st.atoms[eaten].parent && m.atoms[eater].coords == st.atoms[eater].coords &&
      m.atoms[eater].flag == MaxFlag(st.atoms[eater].flag, st.atoms[eaten].flag) &&
      (forall k :: 0 <= k < |st.atoms| && k != eater ==> m.atoms[k].(nbhd := st.atoms[k].nbhd) == st.atoms[k]) &&
      (eaten in Ids(st.cycle) && Packed(st.cycle) ==> eater in Ids(CycleWithout(m.cycle, eaten))) &&
      (forall k, y :: Holds(Lists(m.atoms), k, y) <==> (Holds(L, k, y) ||
        (k == eater && Holds(L, eaten, y) && y != eater) || (y == eater && Holds(L, eaten, k) && k != eater)))
  {
    var L := Lists(st.atoms);
    var nb := st.atoms[eaten].nbhd;
    var b := Absorbed(st.atoms, eater, nb);
    AbsorbedFacts(st.atoms, eater, nb);
    var m := Absorbing(st, eater, eaten);
    assert Lists(m.atoms) == Lists(b);
    BufferHolds(st.atoms, eaten);
    forall k, y
      ensures Holds(Lists(m.atoms), k, y) <==> (Holds(L, k, y) ||
        (k == eater && Holds(L, eaten, y) && y != eater) || (y == eater && Holds(L, eaten, k) && k != eater))
    {
      assert Holds(Lists(b), k, y) <==> (Holds(L, k, y) ||
        (k == eater && y in nb && 0 <= y < |st.atoms| && y != eater) ||
        (y == eater && k in nb && 0 <= k < |st.atoms| && k != eater));
    }
    if eaten in Ids(st.cycle) && Packed(st.cycle) {
      CycleKeeps(st.cycle, eater, eaten);
    }
  }

  /** On consistent lists, the slots an atom's buffer names are exactly its neighbours. */
  lemma BufferHolds(atoms: seq<ShellAtom>, id: nat)
    requires Consistent(Lists(atoms)) && id < |atoms|
    ensures forall y :: y in atoms[id].nbhd && 0 <= y < |atoms| <==> Holds(Lists(atoms), id, y)
  {
    var nb := atoms[id].nbhd;
    assert Packed(nb) && Ids(nb) == nb[..FirstFree(nb)];
    forall y | 0 <= y
      ensures y in nb <==> y in Ids(nb)
    {
      if y in nb {
        PackedIn(nb, y);
      }
    }
    assert RowOk(Neighbourhoods(Lists(atoms)), id);
  }

  /** SHL_mergeAtom on consistent lists: the eater ends up joined to every former neighbour of
      the eaten atom, the eaten atom disappears from every list and its slot is reset, the eater
      takes its parent and the larger flag and joins the cycle list when the eaten atom was on
      it, and the lists stay consistent. */
  lemma MergeAtomFacts(st: ShellState, eater: nat, eaten: nat)
    requires Consistent(Lists(st.atoms)) && eater < |st.atoms| && eaten < |st.atoms| && eater != eaten
    requires RemovedVertex(st.vertices, eaten).Some?
    ensures AtomsMerged(st, eater, eaten).Some?
    ensures var r, L := AtomsMerged(st, eater, eaten).value, Lists(st.atoms);
      Consistent(Lists(r.atoms)) && r.atoms[eaten] == InitAtom &&
      r.atoms[eater].parent == st.atoms[eaten].parent && r.atoms[eater].coords == st.atoms[eater].coords &&
      r.atoms[eater].flag == MaxFlag(st.atoms[eater].flag, st.atoms[eaten].flag) &&
      (forall k :: 0 <= k < |st.atoms| && k != eater && k != eaten ==>
        r.atoms[k].(nbhd := st.atoms[k].nbhd) == st.atoms[k]) &&
      (eaten in Ids(st.cycle) && Packed(st.cycle) ==> eater in Ids(r.cycle)) &&
      (forall k, y :: Holds(Lists(r.atoms), k, y) <==> (k != eaten && y != eaten &&
        (Holds(L, k, y) || (k == eater && Holds(L, eaten, y) && y != eater) ||
         (y == eater && Holds(L, eaten, k) && k != eater))))
  {
    var m := Absorbing(st, eater, eaten);
    AbsorbingFacts(st, eater, eaten);
    RemoveAtomFacts(m, eaten);
  }

  /** Adding the eater to the cycle list and then removing the eaten atom keeps the eater. */
  lemma CycleKeeps(cycle: seq<int>, eater: int, eaten: int)
    requires Packed(cycle) && eater != eaten && eater != FREE
    ensures var r := Added(cycle, eater);
      eater in Ids(CycleWithout(r, eaten))
  {
    var r := Added(cycle, eater);
    AddedIds(cycle, eater);
    assert eater in Ids(r);
    if eaten in Ids(r) {
      RemovedIds(r, eaten);
      DeleteFirstKeeps(Ids(r), eaten, eater);
    }
  }

  lemma {:induction false} DeleteFirstKeeps(xs: seq<int>, x: int, y: int)
    requires y in xs && y != x
    ensures y in DeleteFirst(xs, x)
  {
    if xs[0] != x && xs[0] != y {
      DeleteFirstKeeps(xs[1..], x, y);
    }
  }

  /*********************************************************************************************
   * Edge count (SHL_nbEdges)
   *********************************************************************************************/

  /** The sum of LST_nbElements over the lists of the first n atoms. */
  function NeighbourSum(atoms: seq<ShellAtom>, n: nat): nat
    requires n <= |atoms|
  {
    if n == 0 then 0 else NeighbourSum(atoms, n - 1) + UsedLength(atoms[n - 1].nbhd)
  }

  lemma {:induction false} NeighbourSumIsDegreeSum(atoms: seq<ShellAtom>, n: nat)
    requires n <= |atoms| && forall k :: 0 <= k < |atoms| ==> Packed(atoms[k].nbhd)
    ensures NeighbourSum(atoms, n) == DegreeSum(Neighbourhoods(Lists(atoms)), n)
  {
    if n > 0 {
      NeighbourSumIsDegreeSum(atoms, n - 1);
      CountIdsOfPacked(atoms[n - 1].nbhd);
    }
  }

  /** SHL_nbEdges counts the edges: on consistent lists, half the summed list lengths is the
      number of unordered adjacent pairs. */
  lemma EdgeCountIsEdges(atoms: seq<ShellAtom>)
    requires Consistent(Lists(atoms))
    ensures NeighbourSum(atoms, |atoms|) / 2 == PairCount(Neighbourhoods(Lists(atoms)), |atoms|)
  {
    NeighbourSumIsDegreeSum(atoms, |atoms|);
    Handshake(Neighbourhoods(Lists(atoms)));
  }

  /*********************************************************************************************
   * Copies (SHL_copy)
   *********************************************************************************************/

  /** The atoms of SHL_copy: every list copied by LST_copy. */
  function CopiedAtoms(atoms: seq<ShellAtom>): seq<ShellAtom>
  {
    seq(|atoms|, i requires 0 <= i < |atoms| => atoms[i].(nbhd := Copied(atoms[i].nbhd)))
  }

  /** SHL_copy is a deep copy: same flags, coordinates and parents, and lists that hold the
      same ids, so consistent lists stay consistent with the same edges. */
  lemma CopyFacts(atoms: seq<ShellAtom>)
    ensures var r := CopiedAtoms(atoms);
      |r| == |atoms| &&
      (forall k :: 0 <= k < |atoms| ==> r[k].(nbhd := atoms[k].nbhd) == atoms[k]) &&
      (forall k :: 0 <= k < |atoms| && Packed(atoms[k].nbhd) ==> Ids(r[k].nbhd) == Ids(atoms[k].nbhd)) &&
      (Consistent(Lists(atoms)) ==>
        Consistent(Lists(r)) && Neighbourhoods(Lists(r)) == Neighbourhoods(Lists(atoms)))
  {
    var r := CopiedAtoms(atoms);
    forall k | 0 <= k < |atoms| && Packed(atoms[k].nbhd)
      ensures Packed(r[k].nbhd) && Ids(r[k].nbhd) == Ids(atoms[k].nbhd)
    {
      CopiedIds(atoms[k].nbhd);
    }
    if Consistent(Lists(atoms)) {
      assert Neighbourhoods(Lists(r)) == Neighbourhoods(Lists(atoms));
    }
  }

  /*********************************************************************************************
   * Trimmed copies (SHL_copyCageAtoms)
   *********************************************************************************************/

  /** Slot k is one the pruning loop of SHL_copyCageAtoms removes from slot j on. */
  ghost predicate Pruned(st: ShellState, j: nat, k: int)
  {
    j <= k < |st.atoms| && st.atoms[k].flag == SHELL_F
  }

  /** The first loop of SHL_copyCageAtoms from slot j on: every envelope atom (SHELL_F) is
      removed with SHL_removeAtom. None when one of those removals is undefined. */
  function PrunedFrom(st: ShellState, j: nat): (r: Option<ShellState>)
    ensures r.Some? ==> |r.value.atoms| == |st.atoms|
    decreases |st.atoms| - j
  {
    if j >= |st.atoms| then Some(st)
    else if st.atoms[j].flag == SHELL_F then
      var r := AtomRemoved(st, j);
      if r.None? then None else PrunedFrom(r.value, j + 1)
    else PrunedFrom(st, j + 1)
  }

  /** Only used atoms have neighbours. */
  ghost predicate Tidy(atoms: seq<ShellAtom>)
  {
    forall k, y :: Holds(Lists(atoms), k, y) ==> Used(atoms[k])
  }

  /** GPH_removeVertex is defined on a consistent graph, present or not, and keeps it
      consistent. */
  lemma RemoveAnyVertexOk(vs: seq<Vertex>, id: nat)
    requires GraphOk(vs)
    ensures RemovedVertex(vs, id).Some? && GraphOk(RemovedVertex(vs, id).value)
  {
    if HasVertex(vs, id) {
      RemoveVertexOk(vs, id);
    }
  }

  /** One step of the pruning loop. */
  lemma PruneStep(st: ShellState, j: nat)
    requires Consistent(Lists(st.atoms)) && GraphOk(st.vertices) && Tidy(st.atoms) && j < |st.atoms|
    ensures var r := if st.atoms[j].flag == SHELL_F then AtomRemoved(st, j) else Some(st);
      r.Some? && Consistent(Lists(r.value.atoms)) && GraphOk(r.value.vertices) && Tidy(r.value.atoms) &&
      |r.value.atoms| == |st.atoms| &&
      (forall k :: 0 <= k < |st.atoms| ==> Pruned(r.value, j + 1, k) == (Pruned(st, j, k) && k != j)) &&
      (forall k :: 0 <= k < |st.atoms| && !Pruned(st, j, k) ==>
        r.value.atoms[k].(nbhd := st.atoms[k].nbhd) == st.atoms[k]) &&
      (Pruned(st, j, j) ==> r.value.atoms[j] == InitAtom) &&
      (forall k :: 0 <= k < |st.atoms| ==> |r.value.atoms[k].nbhd| <= |st.atoms[k].nbhd|) &&
      (forall k, y :: Holds(Lists(r.value.atoms), k, y) <==>
        (Holds(Lists(st.atoms), k, y) && !(Pruned(st, j, k) && k == j) && !(Pruned(st, j, y) && y == j)))
  {
    if st.atoms[j].flag == SHELL_F {
      RemoveAnyVertexOk(st.vertices, j);
      RemoveAtomFacts(st, j);
      var r := AtomRemoved(st, j).value;
      assert Pruned(st, j, j);
      forall k | 0 <= k < |st.atoms|
        ensures |r.atoms[k].nbhd| <= |st.atoms[k].nbhd|
      {
        assert r.atoms[k].nbhd == Lists(r.atoms)[k];
      }
      forall k | 0 <= k < |st.atoms|
        ensures Pruned(r, j + 1, k) == (Pruned(st, j, k) && k != j)
      {
        if k != j {
          assert r.atoms[k].flag == st.atoms[k].flag;
        }
      }
      forall k | 0 <= k < |st.atoms| && !Pruned(st, j, k)
        ensures r.atoms[k].(nbhd := st.atoms[k].nbhd) == st.atoms[k]
      {
        assert k != j;
      }
      forall k, y
        ensures Holds(Lists(r.atoms), k, y) <==>
          (Holds(Lists(st.atoms), k, y) && !(Pruned(st, j, k) && k == j) && !(Pruned(st, j, y) && y == j))
      {
      }
      forall k, y | Holds(Lists(r.atoms), k, y)
        ensures Used(r.atoms[k])
      {
        assert Used(st.atoms[k]) && k != j;
        assert r.atoms[k].flag == st.atoms[k].flag;
      }
    }
  }

  /** The pruning loop of SHL_copyCageAtoms on a consistent shell whose graph is consistent:
      it is defined, every envelope atom from slot j on is reset and vanishes from every list,
      the other atoms keep their fields, no envelope atom is left from slot j on, and the lists
      and the graph stay consistent. */
  lemma {:induction false} PrunedFacts(st: ShellState, j: nat)
    requires Consistent(Lists(st.atoms)) && GraphOk(st.vertices) && Tidy(st.atoms)
    ensures PrunedFrom(st, j).Some?
    ensures var r := PrunedFrom(st, j).value;
      Consistent(Lists(r.atoms)) && GraphOk(r.vertices) && Tidy(r.atoms) &&
      (forall k :: j <= k < |r.atoms| ==> r.atoms[k].flag != SHELL_F) &&
      (forall k :: Pruned(st, j, k) ==> r.atoms[k] == InitAtom) &&
      (forall k :: 0 <= k < |st.atoms| ==> |r.atoms[k].nbhd| <= |st.atoms[k].nbhd|) &&
      (forall k :: 0 <= k < |st.atoms| && !Pruned(st, j, k) ==>
        r.atoms[k].(nbhd := st.atoms[k].nbhd) == st.atoms[k]) &&
      (forall k, y :: Holds(Lists(r.atoms), k, y) <==>
        (Holds(Lists(st.atoms), k, y) && !Pruned(st, j, k) && !Pruned(st, j, y)))
    decreases |st.atoms| - j
  {
    if j < |st.atoms| {
      PruneStep(st, j);
      var m := if st.atoms[j].flag == SHELL_F then AtomRemoved(st, j).value else st;
      PrunedFacts(m, j + 1);
      var r := PrunedFrom(m, j + 1).value;
      assert PrunedFrom(st, j) == PrunedFrom(m, j + 1);
      forall k | j <= k < |r.atoms|
        ensures r.atoms[k].flag != SHELL_F
      {
        if k == j {
          assert !Pruned(m, j + 1, j);
        }
      }
      forall k | Pruned(st, j, k)
        ensures r.atoms[k] == InitAtom
      {
        if k == j {
          assert !Pruned(m, j + 1, j);
          assert |r.atoms[j].nbhd| <= |m.atoms[j].nbhd| == 0;
        } else {
          assert Pruned(m, j + 1, k);
        }
      }
      forall k | 0 <= k < |st.atoms| && !Pruned(st, j, k)
        ensures r.atoms[k].(nbhd := st.atoms[k].nbhd) == st.atoms[k]
      {
        assert !Pruned(m, j + 1, k);
      }
      forall k, y
        ensures Holds(Lists(r.atoms), k, y) <==>
          (Holds(Lists(st.atoms), k, y) && !Pruned(st, j, k) && !Pruned(st, j, y))
      {
        if Holds(Lists(st.atoms), k, y) {
          assert Pruned(m, j + 1, k) == (Pruned(st, j, k) && k != j);
          assert Pruned(m, j + 1, y) == (Pruned(st, j, y) && y != j);
        }
      }
    }
  }

  /** The slot an atom lands in in the trimmed copy: the number of used slots before it. */
  function Rank(atoms: seq<ShellAtom>, e: nat): nat
    requires e <= |atoms|
  {
    AtomCount(atoms[..e])
  }

  /** relativeEmptyPositions as SHL_copyCageAtoms fills it: for every used slot e, the number
      of unused slots before it. The entries of unused slots are never written. */
  ghost predicate ShiftTable(atoms: seq<ShellAtom>, shifts: seq<int>)
  {
    |shifts| == |atoms| && forall e :: 0 <= e < |atoms| && Used(atoms[e]) ==> shifts[e] == e - Rank(atoms, e)
  }

  /** LST_copyWithShift can read every list of a used atom. */
  ghost predicate CopyReady(atoms: seq<ShellAtom>, shifts: seq<int>)
  {
    forall i :: 0 <= i < |atoms| && Used(atoms[i]) ==> ShiftableBy(atoms[i].nbhd, shifts)
  }

  /** The atoms of the trimmed copy of the first n slots: each used atom in order, its list
      copied by LST_copyWithShift. */
  function Compacted(atoms: seq<ShellAtom>, shifts: seq<int>, n: nat): seq<ShellAtom>
    requires n <= |atoms| && CopyReady(atoms, shifts)
  {
    if n == 0 then []
    else
      var a := atoms[n - 1];
      Compacted(atoms, shifts, n - 1) + (if Used(a) then [a.(nbhd := ShiftedCopy(a.nbhd, shifts))] else [])
  }

  /** Every id in the list of a used atom names a used slot. */
  ghost predicate NeighboursUsed(atoms: seq<ShellAtom>)
  {
    forall i, k :: 0 <= i < |atoms| && Used(atoms[i]) && 0 <= k < UsedLength(atoms[i].nbhd) ==>
      0 <= atoms[i].nbhd[k] < |atoms| && Used(atoms[atoms[i].nbhd[k]])
  }

  /** On consistent tidy lists every neighbour of a used atom is used. */
  lemma TidyNeighbours(atoms: seq<ShellAtom>)
    requires Consistent(Lists(atoms)) && Tidy(atoms)
    ensures NeighboursUsed(atoms)
  {
    forall i, k | 0 <= i < |atoms| && Used(atoms[i]) && 0 <= k < UsedLength(atoms[i].nbhd)
      ensures 0 <= atoms[i].nbhd[k] < |atoms| && Used(atoms[atoms[i].nbhd[k]])
    {
      var nb := atoms[i].nbhd;
      CountIdsOfPacked(nb);
      var y := nb[k];
      assert y in Ids(nb);
      assert RowOk(Neighbourhoods(Lists(atoms)), i);
      assert Holds(Lists(atoms), y, i);
    }
  }

  lemma {:induction false} RankStep(atoms: seq<ShellAtom>, e: nat)
    requires e < |atoms|
    ensures Rank(atoms, e + 1) == Rank(atoms, e) + (if Used(atoms[e]) then 1 else 0)
  {
    assert atoms[..e + 1][..e] == atoms[..e];
  }

  /** The rank of used slots strictly grows, so distinct used atoms land in distinct slots. */
  lemma {:induction false} RankGrows(atoms: seq<ShellAtom>, i: nat, j: nat)
    requires i < j <= |atoms| && Used(atoms[i])
    ensures Rank(atoms, i) < Rank(atoms, j)
    decreases j - i
  {
    RankStep(atoms, j - 1);
    if i < j - 1 {
      RankGrows(atoms, i, j - 1);
    }
  }

  lemma {:induction false} RankBelowCount(atoms: seq<ShellAtom>, e: nat)
    requires e < |atoms| && Used(atoms[e])
    ensures Rank(atoms, e) < AtomCount(atoms)
  {
    RankGrows(atoms, e, |atoms|);
    assert atoms[..|atoms|] == atoms;
  }

  /** The trimmed copy of the first n slots holds one atom per used slot, and the used slot
      e < n sits at its rank. */
  lemma {:induction false} CompactedAt(atoms: seq<ShellAtom>, shifts: seq<int>, n: nat)
    requires n <= |atoms| && CopyReady(atoms, shifts)
    ensures |Compacted(atoms, shifts, n)| == Rank(atoms, n)
    ensures forall e :: 0 <= e < n && Used(atoms[e]) ==>
      Rank(atoms, e) < Rank(atoms, n) && Compacted(atoms, shifts, n)[Rank(atoms, e)] == atoms[e].(nbhd := ShiftedCopy(atoms[e].nbhd, shifts))
  {
    if n > 0 {
      CompactedAt(atoms, shifts, n - 1);
      RankStep(atoms, n - 1);
      forall e | 0 <= e < n && Used(atoms[e])
        ensures Rank(atoms, e) < Rank(atoms, n)
      {
        RankGrows(atoms, e, n);
      }
    } else {
      assert atoms[..0] == [];
    }
  }

  /** With the table SHL_copyCageAtoms fills, LST_copyWithShift renumbers every neighbour of a
      used atom to its rank. */
  lemma ShiftedIsRank(atoms: seq<ShellAtom>, shifts: seq<int>, i: nat)
    requires ShiftTable(atoms, shifts) && NeighboursUsed(atoms) && i < |atoms| && Used(atoms[i])
    ensures ShiftableBy(atoms[i].nbhd, shifts)
    ensures var nb := atoms[i].nbhd;
      ShiftedCopy(nb, shifts) == seq(UsedLength(nb), k requires 0 <= k < UsedLength(nb) => Rank(atoms, nb[k]))
  {
  }

  /** SHL_copyCageAtoms keeps the shell's structure: the copy holds one atom per used slot,
      each used atom i sits at its rank with its flag, coordinates and parent, and on packed
      lists whose ids are used atoms, y is a neighbour of i exactly when the rank of y is a
      neighbour of the rank of i. */
  lemma CompactionKeepsEdges(atoms: seq<ShellAtom>, shifts: seq<int>)
    requires Consistent(Lists(atoms)) && Tidy(atoms) && ShiftTable(atoms, shifts)
    ensures CopyReady(atoms, shifts)
    ensures var c := Compacted(atoms, shifts, |atoms|);
      |c| == AtomCount(atoms) &&
      (forall i :: 0 <= i < |atoms| && Used(atoms[i]) ==>
        Rank(atoms, i) < |c| && c[Rank(atoms, i)].(nbhd := atoms[i].nbhd) == atoms[i]) &&
      (forall i, y :: 0 <= i < |atoms| && Used(atoms[i]) && 0 <= y < |atoms| && Used(atoms[y]) ==>
        (Holds(Lists(atoms), i, y) <==> Rank(atoms, y) in c[Rank(atoms, i)].nbhd))
  {
    TidyNeighbours(atoms);
    forall i | 0 <= i < |atoms| && Used(atoms[i])
      ensures ShiftableBy(atoms[i].nbhd, shifts)
    {
      ShiftedIsRank(atoms, shifts, i);
    }
    var c := Compacted(atoms, shifts, |atoms|);
    CompactedAt(atoms, shifts, |atoms|);
    assert atoms[..|atoms|] == atoms;
    forall i | 0 <= i < |atoms| && Used(atoms[i])
      ensures Rank(atoms, i) < |c|
    {
      RankBelowCount(atoms, i);
    }
    forall i, y | 0 <= i < |atoms| && Used(atoms[i]) && 0 <= y < |atoms| && Used(atoms[y])
      ensures Holds(Lists(atoms), i, y) <==> Rank(atoms, y) in c[Rank(atoms, i)].nbhd
    {
      RankedNeighbour(atoms, shifts, i, y);
    }
  }

  lemma RankedNeighbour(atoms: seq<ShellAtom>, shifts: seq<int>, i: nat, y: nat)
    requires Consistent(Lists(atoms)) && NeighboursUsed(atoms) && ShiftTable(atoms, shifts)
    requires i < |atoms| && Used(atoms[i]) && y < |atoms| && Used(atoms[y])
    ensures Holds(Lists(atoms), i, y) <==> Rank(atoms, y) in ShiftedCopy(atoms[i].nbhd, shifts)
  {
    var nb := atoms[i].nbhd;
    ShiftedIsRank(atoms, shifts, i);
    CountIdsOfPacked(nb);
    var sc := ShiftedCopy(nb, shifts);
    if Rank(atoms, y) in sc {
      var k :| 0 <= k < |sc| && sc[k] == Rank(atoms, y);
      var z := nb[k];
      if z < y {
        RankGrows(atoms, z, y);
      } else if y < z {
        RankGrows(atoms, y, z);
      }
      assert z == y;
      assert y in Ids(nb);
    }
    if Holds(Lists(atoms), i, y) {
      var k :| 0 <= k < |Ids(nb)| && Ids(nb)[k] == y;
      assert sc[k] == Rank(atoms, y);
    }
  }

  /** Every id in the list of a used atom is a slot, so LST_copyWithShift can index a table
      with one entry per slot. */
  ghost predicate Indexable(atoms: seq<ShellAtom>)
  {
    forall i, k :: 0 <= i < |atoms| && Used(atoms[i]) && 0 <= k < UsedLength(atoms[i].nbhd) ==>
      0 <= atoms[i].nbhd[k] < |atoms|
  }

  /*********************************************************************************************
   * Border search (SHL_seekBorder)
   *********************************************************************************************/

  /** An atom SHL_seekBorder stops at: one of the envelope or one that can be linked. */
  predicate Border(a: ShellAtom)
  {
    a.flag == SHELL_F || a.flag == LINKABLE_F
  }

  /** Every id before the first free slot of every list is a slot. */
  ghost predicate ListsInRange(atoms: seq<ShellAtom>)
  {
    forall i, k :: 0 <= i < |atoms| && 0 <= k < FirstFree(atoms[i].nbhd) ==> 0 <= atoms[i].nbhd[k] < |atoms|
  }

  /** Only atoms that are not on the border, all of them slots. */
  ghost predicate Inner(atoms: seq<ShellAtom>, xs: seq<int>)
  {
    forall x :: x in xs ==> 0 <= x < |atoms| && !Border(atoms[x])
  }

  /** Only border atoms, all of them slots. */
  ghost predicate Outer(atoms: seq<ShellAtom>, xs: seq<int>)
  {
    forall x :: x in xs ==> 0 <= x < |atoms| && Border(atoms[x])
  }

  /** Every id of xs is one of ys. */
  ghost predicate Within(xs: seq<int>, ys: seq<int>)
  {
    forall x :: x in xs ==> x in ys
  }

  /** The visited list only grew from before to after, and only with inner atoms. */
  ghost predicate Visited(atoms: seq<ShellAtom>, before: seq<int>, after: seq<int>)
  {
    Within(before, after) && forall x :: x in after && x !in before ==> 0 <= x < |atoms| && !Border(atoms[x])
  }

  lemma VisitedTrans(atoms: seq<ShellAtom>, a: seq<int>, b: seq<int>, c: seq<int>)
    requires Visited(atoms, a, b) && Visited(atoms, b, c)
    ensures Visited(atoms, a, c)
  {
  }

  /** LST_addList of two lists of border atoms is one, and holds both. */
  lemma OuterMerged(atoms: seq<ShellAtom>, a: seq<int>, b: seq<int>)
    requires Packed(a) && Outer(atoms, Ids(a)) && Outer(atoms, Ids(b))
    ensures Packed(Merged(a, b)) && Outer(atoms, Ids(Merged(a, b)))
    ensures Within(Ids(a), Ids(Merged(a, b))) && Within(Ids(b), Ids(Merged(a, b)))
  {
    MergedIn(a, b);
  }

  /** Every border atom among the first i entries of nb is one of ids. */
  ghost predicate Reported(atoms: seq<ShellAtom>, nb: seq<int>, i: nat, ids: seq<int>)
  {
    forall k :: 0 <= k < i && k < |nb| && 0 <= nb[k] < |atoms| && Border(atoms[nb[k]]) ==> nb[k] in ids
  }

  lemma ReportedStep(atoms: seq<ShellAtom>, nb: seq<int>, i: nat, ids: seq<int>, ids': seq<int>)
    requires Reported(atoms, nb, i, ids) && i < |nb| && forall x :: x in ids ==> x in ids'
    requires 0 <= nb[i] < |atoms| && Border(atoms[nb[i]]) ==> nb[i] in ids'
    ensures Reported(atoms, nb, i + 1, ids')
  {
  }

  /** What the loop of SHL_seekBorder on atom id, whose list is nb, keeps after i entries:
      found holds only border atoms, seen holds the ids visited before the call, id and
      inner atoms, and when those visited before were inner, every border atom among the
      first i neighbours was found. */
  ghost predicate Progress(atoms: seq<ShellAtom>, in0: seq<int>, id: int, nb: seq<int>, i: nat,
                           seen: seq<int>, found: seq<int>)
  {
    Outer(atoms, found) && Within(in0 + [id], seen) && Visited(atoms, in0, seen) &&
    (Inner(atoms, in0) ==> Reported(atoms, nb, i, found))
  }

  lemma ProgressStep(atoms: seq<ShellAtom>, in0: seq<int>, id: int, nb: seq<int>, i: nat,
                     seen: seq<int>, found: seq<int>, seen': seq<int>, found': seq<int>)
    requires Progress(atoms, in0, id, nb, i, seen, found) && i < |nb| && 0 <= nb[i] < |atoms|
    requires Visited(atoms, seen, seen') && Outer(atoms, found') && Within(found, found')
    requires nb[i] in seen || (Border(atoms[nb[i]]) ==> nb[i] in found')
    ensures Progress(atoms, in0, id, nb, i + 1, seen', found')
  {
    VisitedTrans(atoms, in0, seen, seen');
    if Inner(atoms, in0) {
      ReportedStep(atoms, nb, i, found, found');
    }
  }

  /** The first i entries of the list nb were each visited or found. */
  ghost predicate HandledUpTo(nb: seq<int>, i: nat, seen: seq<int>, found: seq<int>)
  {
    forall k :: 0 <= k < i && k < |nb| ==> nb[k] in seen || nb[k] in found
  }

  /** Atom x is a slot and every entry of its list was visited or found. */
  ghost predicate Done(atoms: seq<ShellAtom>, x: int, seen: seq<int>, found: seq<int>)
  {
    0 <= x < |atoms| && HandledUpTo(atoms[x].nbhd, FirstFree(atoms[x].nbhd), seen, found)
  }

  /** Every atom visited since before is done. */
  ghost predicate Closed(atoms: seq<ShellAtom>, before: seq<int>, seen: seq<int>, found: seq<int>)
  {
    forall x :: x in seen && x !in before ==> Done(atoms, x, seen, found)
  }

  lemma DoneGrows(atoms: seq<ShellAtom>, x: int, seen: seq<int>, found: seq<int>, seen': seq<int>, found': seq<int>)
    requires Done(atoms, x, seen, found) && Within(seen, seen') && Within(found, found')
    ensures Done(atoms, x, seen', found')
  {
  }

  /** Closure survives a sub-search that closed what it visited and whose findings were kept. */
  lemma ClosedGrows(atoms: seq<ShellAtom>, before: seq<int>, seen: seq<int>, found: seq<int>,
                    seen': seq<int>, sub: seq<int>, found': seq<int>)
    requires Closed(atoms, before, seen, found) && Closed(atoms, seen, seen', sub)
    requires Within(seen, seen') && Within(found, found') && Within(sub, found')
    ensures Closed(atoms, before, seen', found')
  {
    forall x | x in seen' && x !in before
      ensures Done(atoms, x, seen', found')
    {
      if x in seen {
        DoneGrows(atoms, x, seen, found, seen', found');
      } else {
        DoneGrows(atoms, x, seen', sub, seen', found');
      }
    }
  }

  lemma HandledStep(nb: seq<int>, i: nat, seen: seq<int>, found: seq<int>, seen': seq<int>, found': seq<int>)
    requires HandledUpTo(nb, i, seen, found) && Within(seen, seen') && Within(found, found') && i < |nb|
    requires nb[i] in seen' || nb[i] in found'
    ensures HandledUpTo(nb, i + 1, seen', found')
  {
    forall k | 0 <= k < i + 1 && k < |nb|
      ensures nb[k] in seen' || nb[k] in found'
    {
      var y := nb[k];
      assert k < i ==> y in seen || y in found;
    }
  }

  /** The atom a search starts from, once done, joins the atoms it closed. */
  lemma ClosedFrom(atoms: seq<ShellAtom>, in0: seq<int>, id: int, seen: seq<int>, found: seq<int>)
    requires Closed(atoms, in0 + [id], seen, found) && Done(atoms, id, seen, found)
    ensures Closed(atoms, in0, seen, found)
  {
  }

  /** From a border atom the only walk is the atom itself. */
  lemma BorderStart(atoms: seq<ShellAtom>, avoid: seq<int>, id: int)
    requires 0 <= id < |atoms| && Border(atoms[id])
    ensures ReachesAll(atoms, avoid, id, [id])
  {
    forall p | BorderWalk(atoms, avoid, p) && p[0] == id
      ensures p[|p| - 1] in [id]
    {
    }
  }

  /** b follows a in the list of a, before its first free slot. */
  ghost predicate Linked(atoms: seq<ShellAtom>, a: int, b: int)
  {
    0 <= a < |atoms| && b in Ids(atoms[a].nbhd)
  }

  /** p goes from list to list through inner atoms that are not in avoid and ends on a border
      atom. */
  ghost predicate BorderWalk(atoms: seq<ShellAtom>, avoid: seq<int>, p: seq<int>)
  {
    |p| >= 1 && 0 <= p[|p| - 1] < |atoms| && Border(atoms[p[|p| - 1]]) &&
    forall j :: 0 <= j < |p| - 1 ==>
      0 <= p[j] < |atoms| && !Border(atoms[p[j]]) && p[j] !in avoid && Linked(atoms, p[j], p[j + 1])
  }

  /** Every border atom some walk from id reaches through inner atoms outside avoid is found. */
  ghost predicate ReachesAll(atoms: seq<ShellAtom>, avoid: seq<int>, id: int, found: seq<int>)
  {
    forall p | BorderWalk(atoms, avoid, p) && p[0] == id :: p[|p| - 1] in found
  }

  /** A walk that starts at a visited atom ends on a found one, once every atom visited since
      before is done. */
  lemma {:induction false} WalkFound(atoms: seq<ShellAtom>, before: seq<int>, seen: seq<int>,
                                    found: seq<int>, p: seq<int>)
    requires Inner(atoms, before) && Visited(atoms, before, seen) && Outer(atoms, found)
    requires Closed(atoms, before, seen, found) && BorderWalk(atoms, before, p) && p[0] in seen
    ensures p[|p| - 1] in found
  {
    var j := 0;
    while j < |p| - 1
      invariant 0 <= j < |p| && (p[j] in seen || p[j] in found)
    {
      assert p[j] in seen;
      assert Done(atoms, p[j], seen, found);
      var nb := atoms[p[j]].nbhd;
      var k :| 0 <= k < FirstFree(nb) && nb[k] == p[j + 1];
      assert nb[k] in seen || nb[k] in found;
      if j + 1 < |p| - 1 {
        assert !Border(atoms[p[j + 1]]);
      }
      j := j + 1;
    }
  }

  /** From a visited atom, every reachable border atom is found. */
  lemma ReachedFrom(atoms: seq<ShellAtom>, before: seq<int>, seen: seq<int>, found: seq<int>, id: int)
    requires Inner(atoms, before) && Visited(atoms, before, seen) && Outer(atoms, found)
    requires Closed(atoms, before, seen, found) && id in seen
    ensures ReachesAll(atoms, before, id, found)
  {
    forall p | BorderWalk(atoms, before, p) && p[0] == id
      ensures p[|p| - 1] in found
    {
      WalkFound(atoms, before, seen, found, p);
    }
  }

  /*********************************************************************************************
   * The shell object
   *********************************************************************************************/

  class Shell {
    var atoms: seq<ShellAtom>
    var cycle: seq<int>
    const bond: Graph

    /** The whole shell as a value. */
    function State(): ShellState
      reads this, bond
    {
      ShellState(atoms, cycle, bond.vertices)
    }

    /** SHL_create: no slot, an empty cycle list, an empty graph. */
    constructor ()
      ensures atoms == [] && cycle == [] && fresh(bond) && bond.vertices == []
    {
      atoms := [];
      cycle := [];
      bond := new Graph();
    }

    /** The shell SHL_copyCageAtoms assembles from its parts. */
    constructor Of(atoms: seq<ShellAtom>, cycle: seq<int>, bond: Graph)
      ensures this.atoms == atoms && this.cycle == cycle && this.bond == bond
    {
      this.atoms := atoms;
      this.cycle := cycle;
      this.bond := bond;
    }

    /** SHL_copy: every list is copied by LST_copy and the graph by GPH_copy. */
    constructor Copy(s: Shell)
      ensures atoms == CopiedAtoms(s.atoms) && cycle == Copied(s.cycle)
      ensures fresh(bond) && bond.vertices == GraphCopy.GraphCopy(s.bond.vertices)
    {
      var l := new IdList();
      l.elts := s.cycle;
      var c := l.Copy();
      var g := GraphCopy.Copy(s.bond);
      var a: seq<ShellAtom> := [];
      for i := 0 to |s.atoms|
        invariant |a| == i && forall k :: 0 <= k < i ==> a[k] == s.atoms[k].(nbhd := Copied(s.atoms[k].nbhd))
        invariant fresh(g) && g.vertices == GraphCopy.GraphCopy(s.bond.vertices) && c.elts == Copied(s.cycle)
      {
        var n := new IdList();
        n.elts := s.atoms[i].nbhd;
        var cn := n.Copy();
        a := a + [s.atoms[i].(nbhd := cn.elts)];
      }
      atoms := a;
      cycle := c.elts;
      bond := g;
    }

    /** SHL_addNeighbor: LST_addElement on the list of atom i. */
    method AddNeighbor(i: nat, id: int)
      requires i < |atoms|
      modifies this
      ensures atoms == old(atoms)[i := old(atoms)[i].(nbhd := Added(old(atoms)[i].nbhd, id))]
      ensures cycle == old(cycle)
    {
      var l := new IdList();
      l.elts := atoms[i].nbhd;
      l.AddElement(id);
      atoms := atoms[i := atoms[i].(nbhd := l.elts)];
    }

    /** SHL_removeNeighbor: LST_removeElement on the list of atom i. */
    method RemoveNeighbor(i: nat, id: int)
      requires i < |atoms|
      modifies this
      ensures atoms == old(atoms)[i := old(atoms)[i].(nbhd := Removed(old(atoms)[i].nbhd, id))]
      ensures cycle == old(cycle)
    {
      var l := new IdList();
      l.elts := atoms[i].nbhd;
      l.RemoveElement(id);
      atoms := atoms[i := atoms[i].(nbhd := l.elts)];
    }

    /** SHL_addAllocAtom: REALLOCSIZE slots as SHL_initAtom leaves them. */
    method AddAllocAtom()
      modifies this
      ensures atoms == AtomsGrown(old(atoms)) && cycle == old(cycle)
    {
      var a := atoms;
      for i := 0 to REALLOCSIZE
        invariant a == old(atoms) + seq(i, _ => InitAtom)
      {
        a := a + [InitAtom];
      }
      atoms := a;
    }

    /** SHL_nbAtom. */
    method NbAtom() returns (cpt: nat)
      ensures cpt == AtomCount(atoms)
    {
      cpt := 0;
      for i := 0 to |atoms|
        invariant cpt == Rank(atoms, i)
      {
        RankStep(atoms, i);
        if atoms[i].flag != NOT_DEF_F {
          cpt := cpt + 1;
        }
      }
      assert atoms[..|atoms|] == atoms;
    }

    /** SHL_nbEdges: half the summed LST_nbElements of the lists. */
    method NbEdges() returns (n: nat)
      ensures n == NeighbourSum(atoms, |atoms|) / 2
    {
      var cpt := 0;
      for i := 0 to |atoms|
        invariant cpt == NeighbourSum(atoms, i)
      {
        var l := new IdList();
        l.elts := atoms[i].nbhd;
        var k := l.NbElements();
        cpt := cpt + k;
      }
      n := cpt / 2;
    }

    /** SHL_getIndiceFreeAtom: the first unused slot, after growing when there is none. */
    method GetIndiceFreeAtom() returns (i: nat)
      modifies this
      ensures i == FirstUnusedAtom(old(atoms)) && atoms == WithFreeAtom(old(atoms)) && cycle == old(cycle)
      ensures i < |atoms| && !Used(atoms[i])
    {
      i := 0;
      while i < |atoms|
        invariant i <= |atoms| && forall k :: 0 <= k < i ==> Used(atoms[k])
      {
        if atoms[i].flag == NOT_DEF_F {
          return;
        }
        i := i + 1;
      }
      AddAllocAtom();
    }

    /** SHL_addVertex: GPH_addVertex on the graph. */
    method AddVertex(id: nat) returns (indice: nat)
      modifies bond
      ensures bond.vertices == AddedVertex(old(bond.vertices), id) && indice == AddVertexAt(old(bond.vertices), id)
    {
      indice := bond.AddVertex(id);
    }

    /** SHL_removeVertex: GPH_removeVertex on the graph. The id is unsigned there, but it is only
        compared with vertex ids, so the int it was converted from stands for it. */
    method RemoveVertex(id: int)
      requires RemovedVertex(bond.vertices, id).Some?
      modifies bond
      ensures bond.vertices == RemovedVertex(old(bond.vertices), id).value
    {
      bond.RemoveVertex(id);
    }

    /** SHL_addBond: GPH_addEdge on the graph. */
    method AddBond(id1: nat, id2: nat)
      modifies bond
      ensures bond.vertices == AddedEdge(old(bond.vertices), id1, id2)
    {
      bond.AddEdge(id1, id2);
    }

    /** SHL_removeBond: GPH_removeEdge on the graph. */
    method RemoveBond(id1: nat, id2: nat)
      modifies bond
      ensures bond.vertices == RemovedEdge(old(bond.vertices), id1, id2)
    {
      bond.RemoveEdge(id1, id2);
    }

    /** SHL_addEdge: both directions, between two distinct slots only. The ids are unsigned
        in the source, so a negative one is never below the size. */
    method AddEdge(id1: int, id2: int)
      modifies this
      ensures atoms == EdgeAdded(old(atoms), id1, id2) && cycle == old(cycle)
    {
      if 0 <= id1 < |atoms| && 0 <= id2 < |atoms| && id1 != id2 {
        AddNeighbor(id1, id2);
        AddNeighbor(id2, id1);
      } else {
        assert WithLists(atoms, Lists(atoms)) == atoms;
      }
    }

    /** SHL_removeEdge: both directions, between two slots. */
    method RemoveEdge(id1: int, id2: int)
      modifies this
      ensures atoms == EdgeRemoved(old(atoms), id1, id2) && cycle == old(cycle)
    {
      if 0 <= id1 < |atoms| && 0 <= id2 < |atoms| {
        RemoveNeighbor(id1, id2);
        RemoveNeighbor(id2, id1);
      }
    }

    /** SHL_addAtom: an envelope atom in the first unused slot. */
    method AddAtom(coords: Point, parent: int) returns (indice: nat)
      modifies this
      ensures indice == FirstUnusedAtom(old(atoms)) && atoms == AtomAdded(old(atoms), coords, parent)
      ensures cycle == old(cycle)
    {
      indice := GetIndiceFreeAtom();
      atoms := atoms[indice := atoms[indice].(flag := SHELL_F, coords := coords, parent := parent)];
    }

    /** SHL_addCycle: LST_addElement on the cycle list. */
    method AddCycle(id: nat)
      modifies this
      ensures cycle == Added(old(cycle), id) && atoms == old(atoms)
    {
      var l := new IdList();
      l.elts := cycle;
      l.AddElement(id);
      cycle := l.elts;
    }

    /** SHL_removeAtom: defined when every entry of the atom's list is a slot and its vertex,
        if any, can be removed. */
    method RemoveAtom(id: nat)
      requires id < |atoms| ==> AtomRemoved(State(), id).Some?
      modifies this, bond
      ensures State() == AtomRemoved(old(State()), id).value
    {
      if id < |atoms| {
        var l := new IdList();
        l.elts := cycle;
        var c := l.Check(id);
        if c == 1 {
          l.RemoveElement(id);
          cycle := l.elts;
        }
        Detach(id);
        var b := bond.CheckVertex(id);
        if b == 1 {
          bond.RemoveVertex(id);
        }
        atoms := atoms[id := InitAtom];
      }
    }

    /** The neighbour loop of SHL_removeAtom: every neighbour's list loses id. */
    method Detach(id: nat)
      requires id < |atoms| && Detached(atoms, id, 0).Some?
      modifies this
      ensures atoms == Detached(old(atoms), id, 0).value && cycle == old(cycle)
    {
      var m := |atoms[id].nbhd|;
      for i := 0 to m
        invariant |atoms| == |old(atoms)| && |atoms[id].nbhd| == m && cycle == old(cycle)
        invariant Detached(atoms, id, i) == Detached(old(atoms), id, 0)
      {
        var x := atoms[id].nbhd[i];
        if x != FREE {
          RemoveNeighbor(x, id);
        }
      }
    }

    /** The neighbour loop of SHL_mergeAtom: the eater is joined to every entry of the eaten
        atom's list, which does not change since it does not list itself. */
    method Absorb(eater: nat, eaten: nat)
      requires eater < |atoms| && eaten < |atoms| && eater != eaten && eaten !in atoms[eaten].nbhd
      modifies this
      ensures atoms == Absorbed(old(atoms), eater, old(atoms)[eaten].nbhd) && cycle == old(cycle)
    {
      var nb := atoms[eaten].nbhd;
      assert nb[0..] == nb;
      for i := 0 to |nb|
        invariant |atoms| == |old(atoms)| && atoms[eaten].nbhd == nb && cycle == old(cycle)
        invariant Absorbed(atoms, eater, nb[i..]) == Absorbed(old(atoms), eater, nb)
      {
        assert nb[i..] == [nb[i]] + nb[i + 1..];
        if atoms[eaten].nbhd[i] != FREE {
          EdgeAddedKeeps(atoms, eater, nb[i], eaten);
          AddEdge(eater, atoms[eaten].nbhd[i]);
        }
      }
      assert nb[|nb|..] == [];
    }

    /** The middle of SHL_mergeAtom: the eater takes the eaten atom's parent, its place on the
        cycle list and the larger flag. */
    method Inherit(eater: nat, eaten: nat)
      requires eater < |atoms| && eaten < |atoms|
      modifies this
      ensures atoms == old(atoms)[eater := old(atoms)[eater].(parent := old(atoms)[eaten].parent,
        flag := MaxFlag(old(atoms)[eater].flag, old(atoms)[eaten].flag))]
      ensures cycle == if eaten in Ids(old(cycle)) then Added(old(cycle), eater) else old(cycle)
    {
      atoms := atoms[eater := atoms[eater].(parent := atoms[eaten].parent)];
      var l := new IdList();
      l.elts := cycle;
      var c := l.Check(eaten);
      if c == 1 {
        AddCycle(eater);
      }
      if atoms[eater].flag < atoms[eaten].flag {
        atoms := atoms[eater := atoms[eater].(flag := atoms[eaten].flag)];
      }
    }

    /** SHL_mergeAtom, when the eaten atom does not list itself. */
    method MergeAtom(eater: nat, eaten: nat)
      requires eaten < |atoms| ==> eaten !in atoms[eaten].nbhd
      requires AtomsMerged(State(), eater, eaten).Some?
      modifies this, bond
      ensures State() == AtomsMerged(old(State()), eater, eaten).value
    {
      if eater < |atoms| && eaten < |atoms| && eater != eaten {
        Absorb(eater, eaten);
        AbsorbedKeeps(old(atoms), eater, eaten, old(atoms)[eaten].nbhd);
        ghost var mid := Absorbing(old(State()), eater, eaten);
        Inherit(eater, eaten);
        assert State() == mid;
        RemoveAtom(eaten);
      }
    }

    /** SHL_seekBorder: from atom id, collect the border atoms reachable through atoms that are
        not on the border, recording in `inl` the inner atoms visited. */
    method SeekBorder(inl: IdList, id: nat) returns (out: IdList)
      requires id < |atoms| && ListsInRange(atoms) && Packed(inl.elts)
      modifies inl
      ensures fresh(out) && Packed(out.elts) && Packed(inl.elts)
      ensures Outer(atoms, Ids(out.elts)) && Visited(atoms, old(Ids(inl.elts)), Ids(inl.elts))
      ensures Border(atoms[id]) ==> Ids(out.elts) == [id] && inl.elts == old(inl.elts)
      ensures !Border(atoms[id]) ==> id in Ids(inl.elts)
      ensures Inner(atoms, old(Ids(inl.elts))) && !Border(atoms[id]) ==>
        Reported(atoms, atoms[id].nbhd, FirstFree(atoms[id].nbhd), Ids(out.elts))
      ensures Closed(atoms, old(Ids(inl.elts)), Ids(inl.elts), Ids(out.elts))
      ensures Inner(atoms, old(Ids(inl.elts))) ==> ReachesAll(atoms, old(Ids(inl.elts)), id, Ids(out.elts))
      decreases |atoms| - CountIn(Ids(inl.elts) + [id], |atoms|), if Border(atoms[id]) then 0 else 1
    {
      out := new IdList();
      if atoms[id].flag == SHELL_F || atoms[id].flag == LINKABLE_F {
        out.AddElement(id);
        AddedIds([], id);
        BorderStart(atoms, Ids(inl.elts), id);
        return;
      }
      ghost var in0 := Ids(inl.elts);
      AddedIds(inl.elts, id);
      inl.AddElement(id);
      CountInGrows(in0 + [id], Ids(inl.elts), |atoms|, id);
      CountInBound(Ids(inl.elts), |atoms|);
      out := Scan(inl, id, in0);
      ClosedFrom(atoms, in0, id, Ids(inl.elts), Ids(out.elts));
      if Inner(atoms, in0) {
        ReachedFrom(atoms, in0, Ids(inl.elts), Ids(out.elts), id);
      }
    }

    /** The loop of SHL_seekBorder over the neighbours of an inner atom id, once id is
        visited. */
    method Scan(inl: IdList, id: nat, ghost in0: seq<int>) returns (out: IdList)
      requires id < |atoms| && ListsInRange(atoms) && Packed(inl.elts)
      requires Within(in0 + [id], Ids(inl.elts)) && Visited(atoms, in0, Ids(inl.elts))
      modifies inl
      ensures fresh(out) && Packed(out.elts) && Packed(inl.elts)
      ensures Progress(atoms, in0, id, atoms[id].nbhd, FirstFree(atoms[id].nbhd), Ids(inl.elts), Ids(out.elts))
      ensures Closed(atoms, old(Ids(inl.elts)), Ids(inl.elts), Ids(out.elts))
      ensures Done(atoms, id, Ids(inl.elts), Ids(out.elts))
      decreases |atoms| - CountIn(Ids(inl.elts), |atoms|), 0
    {
      out := new IdList();
      ghost var entry := Ids(inl.elts);
      var nb := atoms[id].nbhd;
      ghost var ff := FirstFree(nb);
      var i := 0;
      while i < |nb| && nb[i] != FREE
        invariant i <= ff
        invariant fresh(out) && Packed(out.elts) && Packed(inl.elts) && Visited(atoms, entry, Ids(inl.elts))
        invariant Progress(atoms, in0, id, nb, i, Ids(inl.elts), Ids(out.elts))
        invariant Closed(atoms, entry, Ids(inl.elts), Ids(out.elts))
        invariant HandledUpTo(nb, i, Ids(inl.elts), Ids(out.elts))
      {
        assert i < ff;
        var x := nb[i];
        assert 0 <= x < |atoms|;
        ghost var seen, found := Ids(inl.elts), Ids(out.elts);
        var c := inl.Check(x);
        if c == 0 {
          CountInGrows(entry, Ids(inl.elts) + [x], |atoms|, x);
          CountInBound(Ids(inl.elts) + [x], |atoms|);
          out := Explore(inl, out, x);
          VisitedTrans(atoms, entry, seen, Ids(inl.elts));
          ClosedGrows(atoms, entry, seen, found, Ids(inl.elts), Ids(out.elts), Ids(out.elts));
        }
        HandledStep(nb, i, seen, found, Ids(inl.elts), Ids(out.elts));
        ProgressStep(atoms, in0, id, nb, i, seen, found, Ids(inl.elts), Ids(out.elts));
        i := i + 1;
      }
    }

    /** One step of the loop of SHL_seekBorder, on a neighbour x not visited yet: the border
        atoms found from x are added to out. */
    method Explore(inl: IdList, out: IdList, x: nat) returns (r: IdList)
      requires x < |atoms| && ListsInRange(atoms) && Packed(inl.elts) && Packed(out.elts) && out != inl
      requires x !in Ids(inl.elts) && Outer(atoms, Ids(out.elts))
      modifies inl
      ensures fresh(r) && Packed(r.elts) && Packed(inl.elts)
      ensures Outer(atoms, Ids(r.elts)) && Within(Ids(out.elts), Ids(r.elts))
      ensures Visited(atoms, old(Ids(inl.elts)), Ids(inl.elts))
      ensures Border(atoms[x]) ==> x in Ids(r.elts)
      ensures !Border(atoms[x]) ==> x in Ids(inl.elts)
      ensures Closed(atoms, old(Ids(inl.elts)), Ids(inl.elts), Ids(r.elts))
      ensures Inner(atoms, old(Ids(inl.elts))) ==> ReachesAll(atoms, old(Ids(inl.elts)), x, Ids(r.elts))
      decreases |atoms| - CountIn(Ids(inl.elts) + [x], |atoms|), 2
    {
      CountInBound(Ids(inl.elts) + [x], |atoms|);
      ghost var before := Ids(inl.elts);
      var sub := SeekBorder(inl, x);
      OuterMerged(atoms, out.elts, sub.elts);
      r := IdList.AddList(out, sub);
      ClosedGrows(atoms, before, before, [], Ids(inl.elts), Ids(sub.elts), Ids(r.elts));
      forall p | BorderWalk(atoms, before, p) && p[0] == x && Inner(atoms, before)
        ensures p[|p| - 1] in Ids(r.elts)
      {
      }
    }

    /** The first loop of SHL_copyCageAtoms: every envelope atom is removed. */
    method Prune()
      requires PrunedFrom(State(), 0).Some?
      modifies this, bond
      ensures State() == PrunedFrom(old(State()), 0).value
    {
      for j := 0 to |atoms|
        invariant |atoms| == |old(atoms)|
        invariant PrunedFrom(State(), j) == PrunedFrom(old(State()), 0)
      {
        if atoms[j].flag == SHELL_F {
          RemoveAtom(j);
        }
      }
    }

    /** The second loop of SHL_copyCageAtoms: relativeEmptyPositions, written for used slots
        only. */
    method EmptyPositions() returns (rel: array<int>)
      ensures fresh(rel) && ShiftTable(atoms, rel[..])
    {
      rel := new int[|atoms|];
      var notDefs := 0;
      for i := 0 to |atoms|
        invariant notDefs == i - Rank(atoms, i)
        invariant forall e :: 0 <= e < i && Used(atoms[e]) ==> rel[e] == e - Rank(atoms, e)
      {
        RankStep(atoms, i);
        if atoms[i].flag == NOT_DEF_F {
          notDefs := notDefs + 1;
        } else {
          rel[i] := notDefs;
        }
      }
    }

    /** The third loop of SHL_copyCageAtoms: the used atoms in order, lists copied by
        LST_copyWithShift. */
    method CompactAtoms(shifts: seq<int>) returns (a: seq<ShellAtom>)
      requires CopyReady(atoms, shifts)
      ensures a == Compacted(atoms, shifts, |atoms|) && |a| == AtomCount(atoms)
    {
      a := [];
      for i := 0 to |atoms|
        invariant a == Compacted(atoms, shifts, i)
      {
        if atoms[i].flag != NOT_DEF_F {
          var l := new IdList();
          l.elts := atoms[i].nbhd;
          var c := l.CopyWithShift(shifts);
          a := a + [atoms[i].(nbhd := c.elts)];
        }
      }
      CompactedAt(atoms, shifts, |atoms|);
      assert atoms[..|atoms|] == atoms;
    }

    /** SHL_copyCageAtoms: remove the envelope atoms of this shell, then copy the used atoms
        into consecutive slots, each list renumbered through relativeEmptyPositions; the cycle
        list and the graph are copied unchanged. shifts is the table as filled. */
    method CopyCageAtoms() returns (copy: Shell, ghost shifts: seq<int>)
      requires PrunedFrom(State(), 0).Some? && Indexable(PrunedFrom(State(), 0).value.atoms)
      modifies this, bond
      ensures State() == PrunedFrom(old(State()), 0).value
      ensures ShiftTable(atoms, shifts) && CopyReady(atoms, shifts)
      ensures fresh(copy) && copy.atoms == Compacted(atoms, shifts, |atoms|) && |copy.atoms| == AtomCount(atoms)
      ensures copy.cycle == Copied(cycle) && fresh(copy.bond) && copy.bond.vertices == GraphCopy.GraphCopy(bond.vertices)
    {
      Prune();
      var n := NbAtom();
      var cl := new IdList();
      cl.elts := cycle;
      var cyc := cl.Copy();
      var g := GraphCopy.Copy(bond);
      var rel := EmptyPositions();
      shifts := rel[..];
      var a := CompactAtoms(rel[..]);
      copy := new Shell.Of(a, cyc.elts, g);
    }
  }
}
