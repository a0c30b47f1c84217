/**
 * Pattern generation on the cages (src/generation.c): binding patterns are inserted on the
 * atoms of the envelope (insertAcceptor1, insertDonor1, insertDonor2, generateHydrogenPattern).
 * The split of the dependency graph (generateDependancies) is in module Dependencies, and the
 * marking of aromatic rings (generateCycle) in module Rings.
 *
 * The positions of new atoms come from the geometry of src/util.c (rotations, normals,
 * tetrahedra) and are parameters here. Distance tests compare squared distances exactly.
 */
module Generation {
  import opened Constants
  import opened Options
  import opened IdLists
  import opened Graphs
  import opened Points
  import opened Adjacency
  import opened Shells
  import Molecules
  import Mains
  import GraphCopy

  /*********************************************************************************************
   * Atoms as the insertions see them
   *********************************************************************************************/

  /** Consistent buffers in which only used atoms have neighbours. */
  ghost predicate Sound(atoms: seq<ShellAtom>)
  {
    Consistent(Lists(atoms)) && Tidy(atoms)
  }

  /** An atom that keeps new pattern atoms away: used, and not a plain envelope atom. */
  predicate Solid(a: ShellAtom)
  {
    a.flag != NOT_DEF_F && a.flag != SHELL_F
  }

  /** p is closer than DIST_GAP_CAGE to one of pts. */
  predicate NearAny(p: Point, pts: seq<Point>)
  {
    exists q :: q in pts && DistInf(p, q, DIST_GAP_CAGE)
  }

  /** A solid atom is too close to one of the positions pts. */
  predicate Crowded(atoms: seq<ShellAtom>, pts: seq<Point>)
  {
    exists i :: 0 <= i < |atoms| && Solid(atoms[i]) && NearAny(atoms[i].coords, pts)
  }

  /** The atoms with the flag of atom c set to f. */
  function Flagged(atoms: seq<ShellAtom>, c: nat, f: int): seq<ShellAtom>
    requires c < |atoms|
  {
    atoms[c := atoms[c].(flag := f)]
  }

  /** A buffer of n free slots. */
  function Blank(n: nat): seq<int>
  {
    seq(n, _ => FREE)
  }

  /** The atoms once every edge of atom c is removed: the other atoms lose c, and the buffer of
      c keeps its length with every slot free. */
  function Stripped(atoms: seq<ShellAtom>, c: nat): seq<ShellAtom>
    requires c < |atoms|
  {
    WithLists(atoms, Isolated(Lists(atoms), c)[c := Blank(|atoms[c].nbhd|)])
  }

  /** The first two steps of every insertion: the target takes HYDRO_PATTERN_F and loses its
      edges. */
  function Opened(atoms: seq<ShellAtom>, c: nat): seq<ShellAtom>
    requires c < |atoms|
  {
    Stripped(Flagged(atoms, c, HYDRO_PATTERN_F), c)
  }

  /** The atoms after SHL_addAtom(p, -1), an edge from anchor to the new atom and the new atom's
      flag set to f: what the insertions do for each atom of a pattern. */
  function Sprouted(atoms: seq<ShellAtom>, anchor: int, p: Point, f: int): seq<ShellAtom>
  {
    var i := FirstUnusedAtom(atoms);
    var b := EdgeAdded(AtomAdded(atoms, p, -1), anchor, i);
    b[i := b[i].(flag := f)]
  }

  /** One atom sprouted from anchor for each of pts, in order. */
  function Fan(atoms: seq<ShellAtom>, anchor: int, pts: seq<Point>, f: int): seq<ShellAtom>
    decreases |pts|
  {
    if pts == [] then atoms else Fan(Sprouted(atoms, anchor, pts[0], f), anchor, pts[1..], f)
  }

  /** The atoms after insertAcceptor1 on c with the two positions pts: on a conflict the target
      becomes SHELL_F, otherwise one LINKABLE_F atom joined to it is added per position. */
  function Acceptor(atoms: seq<ShellAtom>, c: nat, pts: seq<Point>): seq<ShellAtom>
    requires c < |atoms|
  {
    var a := Opened(atoms, c);
    if Crowded(a, pts) then Flagged(a, c, SHELL_F) else Fan(a, c, pts, LINKABLE_F)
  }

  /** The atoms after insertDonor1 or insertDonor2 on c: on a conflict with the centre or one of
      pts the target becomes SHELL_F; otherwise a HYDRO_PATTERN_F centre joined to the target is
      added, and one LINKABLE_F atom joined to the centre per position. */
  function Donor(atoms: seq<ShellAtom>, c: nat, centre: Point, pts: seq<Point>): seq<ShellAtom>
    requires c < |atoms|
  {
    var a := Opened(atoms, c);
    if Crowded(a, [centre] + pts) then Flagged(a, c, SHELL_F)
    else Fan(Sprouted(a, c, centre, HYDRO_PATTERN_F), FirstUnusedAtom(a), pts, LINKABLE_F)
  }

  /** Every atom used in atoms is still used in r, in the same slot with the same parent and
      coordinates, and its buffer has not shrunk. */
  ghost predicate Persists(atoms: seq<ShellAtom>, r: seq<ShellAtom>)
  {
    |atoms| <= |r| &&
    forall k :: 0 <= k < |atoms| && Used(atoms[k]) ==>
      Used(r[k]) && r[k].parent == atoms[k].parent && r[k].coords == atoms[k].coords &&
      |r[k].nbhd| >= |atoms[k].nbhd|
  }

  /** Slot k of r holds an atom that atoms does not. */
  ghost predicate Fresh(atoms: seq<ShellAtom>, r: seq<ShellAtom>, k: int)
  {
    0 <= k < |r| && Used(r[k]) && !(k < |atoms| && Used(atoms[k]))
  }

  /*********************************************************************************************
   * Properties of the pieces
   *********************************************************************************************/

  lemma PersistsTrans(a: seq<ShellAtom>, b: seq<ShellAtom>, c: seq<ShellAtom>)
    requires Persists(a, b) && Persists(b, c)
    ensures Persists(a, c)
  {
  }

  /** SHL_nbAtom only looks at which slots are used. */
  lemma {:induction false} AtomCountSameUse(a: seq<ShellAtom>, b: seq<ShellAtom>)
    requires |a| == |b| && forall k :: 0 <= k < |a| ==> Used(a[k]) == Used(b[k])
    ensures AtomCount(a) == AtomCount(b)
  {
    if a != [] {
      AtomCountSameUse(a[..|a| - 1], b[..|b| - 1]);
    }
  }

  /** The first unused slot only depends on which slots are used. */
  lemma {:induction false} FirstUnusedSameUse(a: seq<ShellAtom>, b: seq<ShellAtom>)
    requires |a| == |b| && forall k :: 0 <= k < |a| ==> Used(a[k]) == Used(b[k])
    ensures FirstUnusedAtom(a) == FirstUnusedAtom(b)
  {
    if a != [] && Used(a[0]) {
      FirstUnusedSameUse(a[1..], b[1..]);
    }
  }

  /** Buffers that are appended empty ones stay consistent and hold the same edges. */
  lemma GrownConsistent(ls: seq<seq<int>>, m: nat)
    requires Consistent(ls)
    ensures var r := ls + seq(m, _ => []);
      Consistent(r) && forall k, y :: Holds(r, k, y) <==> Holds(ls, k, y)
  {
    var r := ls + seq(m, _ => []);
    var A, B := Neighbourhoods(ls), Neighbourhoods(r);
    forall k | 0 <= k < |r|
      ensures Degrees.RowOk(B, k) && Packed(r[k])
    {
      if k < |ls| {
        assert Degrees.RowOk(A, k);
      } else {
        assert B[k] == [];
      }
    }
  }

  /** The stripping of c on consistent buffers: they stay consistent, c keeps the length of its
      buffer, and exactly the edges at c are gone; nothing but the buffers changes. */
  lemma StrippedFacts(atoms: seq<ShellAtom>, c: nat)
    requires Consistent(Lists(atoms)) && c < |atoms|
    ensures var r := Stripped(atoms, c);
      Consistent(Lists(r)) && (Tidy(atoms) ==> Tidy(r)) && |r| == |atoms| &&
      |r[c].nbhd| == |atoms[c].nbhd| &&
      (forall k :: 0 <= k < |atoms| ==> r[k].(nbhd := atoms[k].nbhd) == atoms[k]) &&
      (forall k, y :: Holds(Lists(r), k, y) <==> Holds(Lists(atoms), k, y) && k != c && y != c)
  {
    var L := Lists(atoms);
    var I := Isolated(L, c);
    IsolatedConsistent(L, c);
    var R := I[c := Blank(|atoms[c].nbhd|)];
    var r := Stripped(atoms, c);
    assert Lists(r) == R;
    assert Ids(Blank(|atoms[c].nbhd|)) == [];
    assert Neighbourhoods(R) == Neighbourhoods(I);
    assert forall k :: 0 <= k < |R| ==> Packed(R[k]);
    assert forall k, y :: Holds(R, k, y) <==> Holds(I, k, y);
  }

  /** One step of the stripping loop: the first entry x of the buffer of c is another atom, and
      removing the edge to it shortens the list of c by one without changing what stripping
      leaves. */
  lemma StripStep(atoms: seq<ShellAtom>, c: nat)
    requires Consistent(Lists(atoms)) && c < |atoms| && |atoms[c].nbhd| > 0 && atoms[c].nbhd[0] != FREE
    ensures var x := atoms[c].nbhd[0];
      0 <= x < |atoms| && x != c &&
      var r := EdgeRemoved(atoms, c, x);
      Consistent(Lists(r)) && |r| == |atoms| && |r[c].nbhd| == |atoms[c].nbhd| &&
      |Ids(r[c].nbhd)| < |Ids(atoms[c].nbhd)| && Stripped(r, c) == Stripped(atoms, c)
  {
    var L := Lists(atoms);
    var x := atoms[c].nbhd[0];
    assert x in Ids(L[c]);
    assert Degrees.RowOk(Neighbourhoods(L), c);
    assert Degrees.RowOk(Neighbourhoods(L), x);
    RemoveEdgeFacts(atoms, c, x);
    var r := EdgeRemoved(atoms, c, x);
    assert Lists(r) == Separated(L, c, x);
    RemovedIds(L[c], x);
    DeleteFirstFacts(Ids(L[c]), x);
    RemovedIds(L[x], c);
    DeleteFirstFacts(Ids(L[x]), c);
    RemovedAbsent(r[x].nbhd, c);
    assert Lists(Stripped(r, c)) == Lists(Stripped(atoms, c));
  }

  /** When the buffer of c starts with a free slot, stripping changes nothing. */
  lemma StripDone(atoms: seq<ShellAtom>, c: nat)
    requires Consistent(Lists(atoms)) && c < |atoms| && |atoms[c].nbhd| > 0 && atoms[c].nbhd[0] == FREE
    ensures Stripped(atoms, c) == atoms
  {
    var L := Lists(atoms);
    assert atoms[c].nbhd == Blank(|atoms[c].nbhd|);
    assert Ids(L[c]) == [];
    forall k | 0 <= k < |atoms| && k != c
      ensures Removed(L[k], c) == L[k]
    {
      assert Degrees.RowOk(Neighbourhoods(L), k);
      RemovedAbsent(L[k], c);
    }
    assert Lists(Stripped(atoms, c)) == L;
  }

  /** Setting a flag leaves the buffers alone. */
  lemma FlaggedLists(atoms: seq<ShellAtom>, c: nat, f: int)
    requires c < |atoms|
    ensures Lists(Flagged(atoms, c, f)) == Lists(atoms)
  {
  }

  /** Opening c on consistent buffers: c is flagged HYDRO_PATTERN_F and keeps the length of
      its buffer, every edge at c is gone and the other edges stay; no other atom changes
      anything but its buffer. */
  lemma OpenedFacts(atoms: seq<ShellAtom>, c: nat)
    requires Consistent(Lists(atoms)) && c < |atoms|
    ensures var a := Opened(atoms, c);
      Consistent(Lists(a)) && (Tidy(atoms) && Used(atoms[c]) ==> Tidy(a)) && |a| == |atoms| &&
      a[c] == atoms[c].(flag := HYDRO_PATTERN_F, nbhd := Blank(|atoms[c].nbhd|)) &&
      (forall k :: 0 <= k < |atoms| && k != c ==> a[k].(nbhd := atoms[k].nbhd) == atoms[k]) &&
      (forall k, y :: Holds(Lists(a), k, y) <==> Holds(Lists(atoms), k, y) && k != c && y != c)
  {
    var b := Flagged(atoms, c, HYDRO_PATTERN_F);
    FlaggedLists(atoms, c, HYDRO_PATTERN_F);
    StrippedFacts(b, c);
  }

  /*********************************************************************************************
   * Adding pattern atoms
   *********************************************************************************************/

  /** L holds exactly the edges of L0. */
  ghost predicate SameEdges(L: seq<seq<int>>, L0: seq<seq<int>>)
  {
    forall k, y :: Holds(L, k, y) <==> Holds(L0, k, y)
  }

  /** L holds exactly the edges of L0 and the edge a-b. */
  ghost predicate OneMoreEdge(L: seq<seq<int>>, L0: seq<seq<int>>, a: int, b: int)
  {
    forall k, y :: Holds(L, k, y) <==> Holds(L0, k, y) || (k == a && y == b) || (k == b && y == a)
  }

  /** L holds exactly the edges of L0 and one edge between a and each atom that r has and atoms
      has not. */
  ghost predicate Spokes(L: seq<seq<int>>, L0: seq<seq<int>>, a: int, atoms: seq<ShellAtom>, r: seq<ShellAtom>)
  {
    forall k, y :: Holds(L, k, y) <==>
      Holds(L0, k, y) || (k == a && Fresh(atoms, r, y)) || (y == a && Fresh(atoms, r, k))
  }

  /** Slot i is the only slot that r uses and atoms does not. */
  ghost predicate OnlyFresh(atoms: seq<ShellAtom>, r: seq<ShellAtom>, i: int)
  {
    forall k :: Fresh(atoms, r, k) <==> k == i
  }

  /** The slots of atoms other than i keep everything but their buffers in r. */
  ghost predicate KeptBut(atoms: seq<ShellAtom>, r: seq<ShellAtom>, i: int)
  {
    |atoms| <= |r| && forall k :: 0 <= k < |atoms| && k != i ==> r[k].(nbhd := atoms[k].nbhd) == atoms[k]
  }

  /** The slots of atoms that r does not fill anew keep everything but their buffers. */
  ghost predicate KeptOld(atoms: seq<ShellAtom>, r: seq<ShellAtom>)
  {
    |atoms| <= |r| && forall k :: 0 <= k < |atoms| && !Fresh(atoms, r, k) ==> r[k].(nbhd := atoms[k].nbhd) == atoms[k]
  }

  /** The atoms r has and atoms has not have flag f, no parent and one of the positions pts. */
  ghost predicate FreshAre(atoms: seq<ShellAtom>, r: seq<ShellAtom>, f: int, pts: seq<Point>)
  {
    forall k :: Fresh(atoms, r, k) ==> r[k].flag == f && r[k].parent == -1 && r[k].coords in pts
  }

  /** The buffers once SHL_getIndiceFreeAtom has made room. */
  function GrownLists(atoms: seq<ShellAtom>): seq<seq<int>>
  {
    if FirstUnusedAtom(atoms) < |atoms| then Lists(atoms) else Lists(atoms) + seq(REALLOCSIZE, _ => [])
  }

  /** Making room keeps the edges and their consistency, and the first unused slot is then a
      slot. */
  lemma GrownListsFacts(atoms: seq<ShellAtom>)
    requires Consistent(Lists(atoms))
    ensures var G, i := GrownLists(atoms), FirstUnusedAtom(atoms);
      Consistent(G) && |atoms| <= |G| && i < |G| && SameEdges(G, Lists(atoms))
  {
    if FirstUnusedAtom(atoms) == |atoms| {
      GrownConsistent(Lists(atoms), REALLOCSIZE);
    }
  }

  /** SHL_addAtom leaves the buffers as making room left them. */
  lemma AddedLists(atoms: seq<ShellAtom>, p: Point, parent: int)
    ensures Lists(AtomAdded(atoms, p, parent)) == GrownLists(atoms)
  {
    var a1, G := AtomAdded(atoms, p, parent), GrownLists(atoms);
    AddAtomFacts(atoms, p, parent);
    assert |Lists(a1)| == |G|;
    forall k | 0 <= k < |G|
      ensures Lists(a1)[k] == G[k]
    {
      if k < |atoms| {
        assert G[k] == atoms[k].nbhd;
      } else {
        assert G[k] == [];
      }
    }
  }

  /** Joining two distinct slots of consistent buffers that hold the edges of L0. */
  lemma JoinChain(L0: seq<seq<int>>, G: seq<seq<int>>, a: int, i: int)
    requires Consistent(G) && 0 <= a < |G| && 0 <= i < |G| && a != i && SameEdges(G, L0)
    ensures Consistent(Joined(G, a, i)) && OneMoreEdge(Joined(G, a, i), L0, a, i)
  {
    JoinedConsistent(G, a, i);
  }

  /** Sprouted as its steps. */
  lemma SproutedSplit(atoms: seq<ShellAtom>, anchor: int, p: Point, f: int)
    ensures var i := FirstUnusedAtom(atoms);
      var b := EdgeAdded(AtomAdded(atoms, p, -1), anchor, i);
      i < |b| && b[i].flag == SHELL_F && Sprouted(atoms, anchor, p, f) == Flagged(b, i, f) &&
      Lists(Sprouted(atoms, anchor, p, f)) == Lists(b)
  {
    var i := FirstUnusedAtom(atoms);
    var b := EdgeAdded(AtomAdded(atoms, p, -1), anchor, i);
    AddAtomFacts(atoms, p, -1);
    FlaggedLists(b, i, f);
  }

  /** The buffers of one pattern atom: those after making room, with the edge anchor-i. */
  lemma SproutedListsEq(atoms: seq<ShellAtom>, anchor: int, p: Point, f: int)
    ensures Lists(Sprouted(atoms, anchor, p, f)) == Joined(GrownLists(atoms), anchor, FirstUnusedAtom(atoms))
  {
    var i := FirstUnusedAtom(atoms);
    var a1 := AtomAdded(atoms, p, -1);
    AddedLists(atoms, p, -1);
    var b := EdgeAdded(a1, anchor, i);
    assert Lists(b) == Joined(Lists(a1), anchor, i);
    SproutedSplit(atoms, anchor, p, f);
  }

  /** The edges of one pattern atom: those there were, plus the edge between the anchor and
      the first unused slot. */
  lemma SproutedLists(atoms: seq<ShellAtom>, anchor: int, p: Point, f: int)
    requires Consistent(Lists(atoms)) && 0 <= anchor < |atoms| && Used(atoms[anchor])
    ensures var r, i := Sprouted(atoms, anchor, p, f), FirstUnusedAtom(atoms);
      Consistent(Lists(r)) && i != anchor && OneMoreEdge(Lists(r), Lists(atoms), anchor, i)
  {
    GrownListsFacts(atoms);
    JoinChain(Lists(atoms), GrownLists(atoms), anchor, FirstUnusedAtom(atoms));
    SproutedListsEq(atoms, anchor, p, f);
  }

  /** The buffer of the anchor only grows when an edge is added to it, and no other buffer
      but the new atom's changes. */
  lemma AnchorGrows(a1: seq<ShellAtom>, anchor: int, i: int)
    requires Consistent(Lists(a1)) && 0 <= anchor < |a1| && 0 <= i < |a1| && anchor != i
    ensures var b := EdgeAdded(a1, anchor, i);
      |b| == |a1| && |b[anchor].nbhd| >= |a1[anchor].nbhd| &&
      b[anchor].(nbhd := a1[anchor].nbhd) == a1[anchor] && b[i].(nbhd := a1[i].nbhd) == a1[i] &&
      forall k :: 0 <= k < |b| && k != anchor && k != i ==> b[k] == a1[k]
  {
    var b := EdgeAdded(a1, anchor, i);
    assert Lists(b) == Joined(Lists(a1), anchor, i);
    assert b[anchor].nbhd == Added(a1[anchor].nbhd, i) by {
      assert Lists(b)[anchor] == Joined(Lists(a1), anchor, i)[anchor];
    }
    assert Packed(a1[anchor].nbhd);
    AddedIds(a1[anchor].nbhd, i);
    forall k | 0 <= k < |b| && k != anchor && k != i
      ensures b[k] == a1[k]
    {
      EdgeAddedKeeps(a1, anchor, i, k);
    }
  }

  /** The slots of one pattern atom, compared with those before: the new atom in slot i, the
      anchor with a buffer that has not shrunk, every other slot as it was. */
  lemma SproutedKept(atoms: seq<ShellAtom>, anchor: int, p: Point, f: int)
    requires Consistent(Lists(atoms)) && 0 <= anchor < |atoms| && Used(atoms[anchor])
    ensures var r, i := Sprouted(atoms, anchor, p, f), FirstUnusedAtom(atoms);
      |atoms| <= |r| && i < |r| && i != anchor &&
      r[i].flag == f && r[i].coords == p && r[i].parent == -1 &&
      r[anchor].(nbhd := atoms[anchor].nbhd) == atoms[anchor] &&
      |r[anchor].nbhd| >= |atoms[anchor].nbhd| &&
      (forall k :: 0 <= k < |atoms| && k != anchor && k != i ==> r[k] == atoms[k]) &&
      (forall k :: |atoms| <= k < |r| && k != i ==> r[k] == InitAtom)
  {
    var i := FirstUnusedAtom(atoms);
    var a1 := AtomAdded(atoms, p, -1);
    AddAtomFacts(atoms, p, -1);
    AddedLists(atoms, p, -1);
    GrownListsFacts(atoms);
    AnchorGrows(a1, anchor, i);
    SproutedSplit(atoms, anchor, p, f);
    KeptCompose(atoms, a1, EdgeAdded(a1, anchor, i), Sprouted(atoms, anchor, p, f), anchor, i, p, f);
  }

  /** The comparison of the slots of one pattern atom, from those of its steps. */
  lemma KeptCompose(atoms: seq<ShellAtom>, a1: seq<ShellAtom>, b: seq<ShellAtom>, r: seq<ShellAtom>,
                    anchor: int, i: nat, p: Point, f: int)
    requires 0 <= anchor < |atoms| && Used(atoms[anchor]) && (i < |atoms| ==> !Used(atoms[i]))
    requires |a1| == (if i < |atoms| then |atoms| else |atoms| + REALLOCSIZE)
    requires i < |a1| && a1[i].coords == p && a1[i].parent == -1
    requires forall k :: 0 <= k < |atoms| && k != i ==> a1[k] == atoms[k]
    requires forall k :: |atoms| <= k < |a1| && k != i ==> a1[k] == InitAtom
    requires |b| == |a1| && |b[anchor].nbhd| >= |a1[anchor].nbhd|
    requires b[anchor].(nbhd := a1[anchor].nbhd) == a1[anchor] && b[i].(nbhd := a1[i].nbhd) == a1[i]
    requires forall k :: 0 <= k < |b| && k != anchor && k != i ==> b[k] == a1[k]
    requires r == Flagged(b, i, f)
    ensures |atoms| <= |r| && i < |r| && i != anchor &&
      r[i].flag == f && r[i].coords == p && r[i].parent == -1 &&
      r[anchor].(nbhd := atoms[anchor].nbhd) == atoms[anchor] &&
      |r[anchor].nbhd| >= |atoms[anchor].nbhd| &&
      (forall k :: 0 <= k < |atoms| && k != anchor && k != i ==> r[k] == atoms[k]) &&
      (forall k :: |atoms| <= k < |r| && k != i ==> r[k] == InitAtom)
  {
  }

  /** The slot facts of one pattern atom, from the comparison of its slots. */
  lemma SlotsChain(atoms: seq<ShellAtom>, r: seq<ShellAtom>, anchor: int, i: int, f: int)
    requires |atoms| <= |r| && 0 <= i < |r| && i != anchor && 0 <= anchor < |atoms|
    requires f != NOT_DEF_F && r[i].flag == f && (i < |atoms| ==> !Used(atoms[i]))
    requires r[anchor].(nbhd := atoms[anchor].nbhd) == atoms[anchor]
    requires |r[anchor].nbhd| >= |atoms[anchor].nbhd|
    requires forall k :: 0 <= k < |atoms| && k != anchor && k != i ==> r[k] == atoms[k]
    requires forall k :: |atoms| <= k < |r| && k != i ==> r[k] == InitAtom
    ensures Persists(atoms, r) && OnlyFresh(atoms, r, i) && KeptBut(atoms, r, i)
  {
    forall k | 0 <= k < |atoms| && k != i
      ensures r[k].(nbhd := atoms[k].nbhd) == atoms[k]
    {
      if k != anchor {
        assert r[k] == atoms[k];
      }
    }
    forall k
      ensures Fresh(atoms, r, k) <==> k == i
    {
      if k != i && 0 <= k < |r| {
        if k < |atoms| {
          assert r[k].flag == atoms[k].flag;
        } else {
          assert r[k] == InitAtom;
        }
      }
    }
  }

  /** The slots of one pattern atom: it goes into the first unused slot with flag f, position p
      and no parent; the anchor's buffer does not shrink and the other slots keep everything
      but their buffers. */
  lemma SproutedSlots(atoms: seq<ShellAtom>, anchor: int, p: Point, f: int)
    requires Consistent(Lists(atoms)) && 0 <= anchor < |atoms| && Used(atoms[anchor]) && f != NOT_DEF_F
    ensures var r, i := Sprouted(atoms, anchor, p, f), FirstUnusedAtom(atoms);
      Persists(atoms, r) && i < |r| && r[i].flag == f && r[i].coords == p && r[i].parent == -1 &&
      OnlyFresh(atoms, r, i) && KeptBut(atoms, r, i)
  {
    SproutedKept(atoms, anchor, p, f);
    SlotsChain(atoms, Sprouted(atoms, anchor, p, f), anchor, FirstUnusedAtom(atoms), f);
  }

  /** One pattern atom raises SHL_nbAtom by one. */
  lemma SproutedCount(atoms: seq<ShellAtom>, anchor: int, p: Point, f: int)
    requires f != NOT_DEF_F
    ensures AtomCount(Sprouted(atoms, anchor, p, f)) == AtomCount(atoms) + 1
  {
    var i := FirstUnusedAtom(atoms);
    var a1 := AtomAdded(atoms, p, -1);
    AddAtomFacts(atoms, p, -1);
    var b := EdgeAdded(a1, anchor, i);
    assert |b| == |a1| && forall k :: 0 <= k < |b| ==> b[k] == a1[k].(nbhd := Lists(b)[k]);
    AtomCountSameUse(a1, b);
    SproutedSplit(atoms, anchor, p, f);
    AtomCountUpdate(b, i, b[i].(flag := f));
  }

  /** Tidiness survives a step that only adds edges at a used anchor or at new atoms. */
  lemma TidySpokes(atoms: seq<ShellAtom>, r: seq<ShellAtom>, anchor: int)
    requires Tidy(atoms) && Persists(atoms, r) && 0 <= anchor < |atoms| && Used(atoms[anchor])
    requires Spokes(Lists(r), Lists(atoms), anchor, atoms, r)
    ensures Tidy(r)
  {
    forall k, y | Holds(Lists(r), k, y)
      ensures Used(r[k])
    {
      if Holds(Lists(atoms), k, y) {
        assert Used(atoms[k]);
      }
    }
  }

  /** One new atom as a spoke. */
  lemma OneMoreIsSpoke(atoms: seq<ShellAtom>, r: seq<ShellAtom>, anchor: int, i: int)
    requires OneMoreEdge(Lists(r), Lists(atoms), anchor, i) && OnlyFresh(atoms, r, i)
    ensures Spokes(Lists(r), Lists(atoms), anchor, atoms, r)
  {
  }

  /** One pattern atom, all together. */
  lemma SproutedFacts(atoms: seq<ShellAtom>, anchor: int, p: Point, f: int)
    requires Consistent(Lists(atoms)) && 0 <= anchor < |atoms| && Used(atoms[anchor]) && f != NOT_DEF_F
    ensures var r, i := Sprouted(atoms, anchor, p, f), FirstUnusedAtom(atoms);
      Consistent(Lists(r)) && (Tidy(atoms) ==> Tidy(r)) && Persists(atoms, r) &&
      i < |r| && i != anchor && r[i].flag == f && r[i].coords == p && r[i].parent == -1 &&
      OnlyFresh(atoms, r, i) && KeptBut(atoms, r, i) && AtomCount(r) == AtomCount(atoms) + 1 &&
      OneMoreEdge(Lists(r), Lists(atoms), anchor, i) && Spokes(Lists(r), Lists(atoms), anchor, atoms, r)
  {
    var r, i := Sprouted(atoms, anchor, p, f), FirstUnusedAtom(atoms);
    SproutedLists(atoms, anchor, p, f);
    SproutedSlots(atoms, anchor, p, f);
    SproutedCount(atoms, anchor, p, f);
    OneMoreIsSpoke(atoms, r, anchor, i);
    if Tidy(atoms) {
      TidySpokes(atoms, r, anchor);
    }
  }

  /** Freshness over two steps, the first of which adds exactly slot i. */
  lemma FreshTrans(a: seq<ShellAtom>, b: seq<ShellAtom>, c: seq<ShellAtom>, i: int)
    requires Persists(a, b) && Persists(b, c) && OnlyFresh(a, b, i)
    ensures forall k :: Fresh(a, c, k) <==> k == i || Fresh(b, c, k)
  {
    assert Fresh(a, b, i);
    forall k
      ensures Fresh(a, c, k) <==> k == i || Fresh(b, c, k)
    {
      if 0 <= k < |a| && Used(a[k]) {
        assert Used(b[k]);
      }
      if 0 <= k < |b| && Used(b[k]) {
        assert Used(c[k]);
        assert Fresh(a, b, k) ==> k == i;
      }
    }
  }

  /** The slot facts of a fan, from its first atom and the rest. */
  lemma FanSlotsChain(atoms: seq<ShellAtom>, r1: seq<ShellAtom>, r: seq<ShellAtom>, i: int,
                      f: int, pts: seq<Point>)
    requires Persists(atoms, r1) && Persists(r1, r) && OnlyFresh(atoms, r1, i) && KeptBut(atoms, r1, i)
    requires |pts| > 0 && 0 <= i < |r1| && r1[i].flag == f && r1[i].parent == -1 && r1[i].coords == pts[0]
    requires KeptOld(r1, r) && FreshAre(r1, r, f, pts[1..])
    ensures Persists(atoms, r) && KeptOld(atoms, r) && FreshAre(atoms, r, f, pts)
  {
    PersistsTrans(atoms, r1, r);
    FreshTrans(atoms, r1, r, i);
    forall k | 0 <= k < |atoms| && !Fresh(atoms, r, k)
      ensures r[k].(nbhd := atoms[k].nbhd) == atoms[k]
    {
      assert k != i && !Fresh(r1, r, k);
    }
    forall k | Fresh(atoms, r, k)
      ensures r[k].flag == f && r[k].parent == -1 && r[k].coords in pts
    {
      if k != i {
        assert Fresh(r1, r, k);
        var j :| 0 <= j < |pts[1..]| && pts[1..][j] == r[k].coords;
        assert pts[j + 1] == r[k].coords;
      } else {
        assert !Fresh(r1, r, i);
      }
    }
  }

  /** The slots of a fan from anchor: one new atom per position, each with flag f, no parent
      and its position; the other atoms keep everything but their buffers, which do not shrink. */
  lemma {:induction false} FanSlots(atoms: seq<ShellAtom>, anchor: int, pts: seq<Point>, f: int)
    requires Consistent(Lists(atoms)) && 0 <= anchor < |atoms| && Used(atoms[anchor]) && f != NOT_DEF_F
    ensures var r := Fan(atoms, anchor, pts, f);
      Persists(atoms, r) && KeptOld(atoms, r) && FreshAre(atoms, r, f, pts) &&
      AtomCount(r) == AtomCount(atoms) + |pts|
    decreases |pts|
  {
    if pts != [] {
      var r1 := Sprouted(atoms, anchor, pts[0], f);
      SproutedSlots(atoms, anchor, pts[0], f);
      SproutedCount(atoms, anchor, pts[0], f);
      SproutedLists(atoms, anchor, pts[0], f);
      FanSlots(r1, anchor, pts[1..], f);
      var r := Fan(atoms, anchor, pts, f);
      assert r == Fan(r1, anchor, pts[1..], f);
      FanSlotsChain(atoms, r1, r, FirstUnusedAtom(atoms), f, pts);
    }
  }

  /** The edges of a fan, from its first atom and the rest. */
  lemma SpokesChain(L0: seq<seq<int>>, L1: seq<seq<int>>, L2: seq<seq<int>>, anchor: int, i: int,
                    atoms: seq<ShellAtom>, r1: seq<ShellAtom>, r: seq<ShellAtom>)
    requires OneMoreEdge(L1, L0, anchor, i) && Spokes(L2, L1, anchor, r1, r)
    requires forall k :: Fresh(atoms, r, k) <==> k == i || Fresh(r1, r, k)
    ensures Spokes(L2, L0, anchor, atoms, r)
  {
  }

  /** The edges of a fan from anchor: those there were, plus one edge between the anchor and
      each new atom. */
  lemma {:induction false} FanLists(atoms: seq<ShellAtom>, anchor: int, pts: seq<Point>, f: int)
    requires Consistent(Lists(atoms)) && 0 <= anchor < |atoms| && Used(atoms[anchor]) && f != NOT_DEF_F
    ensures var r := Fan(atoms, anchor, pts, f);
      Consistent(Lists(r)) && Spokes(Lists(r), Lists(atoms), anchor, atoms, r)
    decreases |pts|
  {
    if pts != [] {
      var i := FirstUnusedAtom(atoms);
      var r1 := Sprouted(atoms, anchor, pts[0], f);
      SproutedFacts(atoms, anchor, pts[0], f);
      FanLists(r1, anchor, pts[1..], f);
      FanSlots(r1, anchor, pts[1..], f);
      var r := Fan(atoms, anchor, pts, f);
      assert r == Fan(r1, anchor, pts[1..], f);
      FreshTrans(atoms, r1, r, i);
      SpokesChain(Lists(atoms), Lists(r1), Lists(r), anchor, i, atoms, r1, r);
    }
  }

  /** A fan of pattern atoms from anchor, all together: one new atom per position, each with
      flag f, no parent and its position, each joined to the anchor and to nothing else; the
      other atoms keep everything but their buffers, and no other edge appears or goes. */
  lemma FanFacts(atoms: seq<ShellAtom>, anchor: int, pts: seq<Point>, f: int)
    requires Consistent(Lists(atoms)) && 0 <= anchor < |atoms| && Used(atoms[anchor]) && f != NOT_DEF_F
    ensures var r := Fan(atoms, anchor, pts, f);
      Consistent(Lists(r)) && (Tidy(atoms) ==> Tidy(r)) && Persists(atoms, r) &&
      KeptOld(atoms, r) && FreshAre(atoms, r, f, pts) && AtomCount(r) == AtomCount(atoms) + |pts| &&
      Spokes(Lists(r), Lists(atoms), anchor, atoms, r)
  {
    var r := Fan(atoms, anchor, pts, f);
    FanSlots(atoms, anchor, pts, f);
    FanLists(atoms, anchor, pts, f);
    if Tidy(atoms) {
      TidySpokes(atoms, r, anchor);
    }
  }

  /*********************************************************************************************
   * What an insertion does
   *********************************************************************************************/

  /** L holds exactly the edges of L0 that do not touch c. */
  ghost predicate EdgesBut(L: seq<seq<int>>, L0: seq<seq<int>>, c: int)
  {
    forall k, y :: Holds(L, k, y) <==> Holds(L0, k, y) && k != c && y != c
  }

  /** L holds the edges of L0 that do not touch c, and c is joined to exactly the atoms that r
      has and atoms has not. */
  ghost predicate Rewired(L: seq<seq<int>>, L0: seq<seq<int>>, c: int, atoms: seq<ShellAtom>, r: seq<ShellAtom>)
  {
    forall k, y :: Holds(L, k, y) <==>
      (Holds(L0, k, y) && k != c && y != c) || (k == c && Fresh(atoms, r, y)) || (y == c && Fresh(atoms, r, k))
  }

  /** L holds the edges of L0 that do not touch c, the edge c-d, and an edge between d and each
      other atom that r has and atoms has not. */
  ghost predicate RewiredVia(L: seq<seq<int>>, L0: seq<seq<int>>, c: int, d: int, atoms: seq<ShellAtom>, r: seq<ShellAtom>)
  {
    forall k, y :: Holds(L, k, y) <==>
      (Holds(L0, k, y) && k != c && y != c) || (k == c && y == d) || (k == d && y == c) ||
      (k == d && y != d && Fresh(atoms, r, y)) || (y == d && k != d && Fresh(atoms, r, k))
  }

  /** atoms and a use the same slots. */
  ghost predicate SameUse(atoms: seq<ShellAtom>, a: seq<ShellAtom>)
  {
    |a| == |atoms| && forall k :: 0 <= k < |atoms| ==> Used(a[k]) == Used(atoms[k])
  }

  /** In r, atom c of atoms has flag f and keeps everything else but its buffer, and so does every
      other atom of atoms that r does not fill anew, with its own flag. */
  ghost predicate Retargeted(atoms: seq<ShellAtom>, r: seq<ShellAtom>, c: int, f: int)
  {
    0 <= c < |atoms| <= |r| && r[c].(nbhd := atoms[c].nbhd) == atoms[c].(flag := f) &&
    forall k :: 0 <= k < |atoms| && k != c && !Fresh(atoms, r, k) ==> r[k].(nbhd := atoms[k].nbhd) == atoms[k]
  }

  /** Opening keeps the length of every buffer. */
  lemma OpenedLengths(atoms: seq<ShellAtom>, c: nat)
    requires Consistent(Lists(atoms)) && c < |atoms|
    ensures var a := Opened(atoms, c);
      |a| == |atoms| && forall k :: 0 <= k < |atoms| ==> |a[k].nbhd| == |atoms[k].nbhd|
  {
    var a := Opened(atoms, c);
    OpenedFacts(atoms, c);
    forall k | 0 <= k < |atoms|
      ensures |a[k].nbhd| == |atoms[k].nbhd|
    {
      if k != c {
        assert a[k].nbhd == Removed(atoms[k].nbhd, c) by {
          assert Lists(a)[k] == Isolated(Lists(Flagged(atoms, c, HYDRO_PATTERN_F)), c)[k];
        }
      }
    }
  }

  /** The slot facts of opening, from its atom-by-atom description. */
  lemma OpenedCompose(atoms: seq<ShellAtom>, a: seq<ShellAtom>, c: nat)
    requires |a| == |atoms| && c < |atoms| && Used(atoms[c])
    requires a[c] == atoms[c].(flag := HYDRO_PATTERN_F, nbhd := Blank(|atoms[c].nbhd|))
    requires forall k :: 0 <= k < |atoms| && k != c ==> a[k].(nbhd := atoms[k].nbhd) == atoms[k]
    requires forall k :: 0 <= k < |atoms| ==> |a[k].nbhd| == |atoms[k].nbhd|
    ensures SameUse(atoms, a) && Persists(atoms, a) && Retargeted(atoms, a, c, HYDRO_PATTERN_F)
    ensures AtomCount(a) == AtomCount(atoms) && FirstUnusedAtom(a) == FirstUnusedAtom(atoms)
  {
    forall k | 0 <= k < |atoms|
      ensures Used(a[k]) == Used(atoms[k])
    {
      if k != c {
        assert a[k].flag == atoms[k].flag;
      }
    }
    AtomCountSameUse(atoms, a);
    FirstUnusedSameUse(atoms, a);
  }

  /** Freshness only depends on which slots are used. */
  lemma FreshSameUse(a: seq<ShellAtom>, atoms: seq<ShellAtom>, r: seq<ShellAtom>)
    requires SameUse(atoms, a)
    ensures forall k :: Fresh(a, r, k) == Fresh(atoms, r, k)
  {
  }

  /** The edges of an acceptor, from those of opening and of the fan. */
  lemma RewiredChain(L0: seq<seq<int>>, La: seq<seq<int>>, L: seq<seq<int>>, c: int,
                     atoms: seq<ShellAtom>, a: seq<ShellAtom>, r: seq<ShellAtom>)
    requires EdgesBut(La, L0, c) && Spokes(L, La, c, a, r)
    requires forall k :: Fresh(a, r, k) == Fresh(atoms, r, k)
    ensures Rewired(L, L0, c, atoms, r)
  {
  }

  /** What a retargeted atom keeps survives a step that keeps every old slot. */
  lemma RetargetChain(atoms: seq<ShellAtom>, a: seq<ShellAtom>, r: seq<ShellAtom>, c: int, f: int)
    requires Retargeted(atoms, a, c, f) && SameUse(atoms, a) && KeptOld(a, r) && Used(atoms[c])
    requires forall k :: Fresh(a, r, k) == Fresh(atoms, r, k)
    ensures Retargeted(atoms, r, c, f)
  {
    assert !Fresh(a, r, c);
    forall k | 0 <= k < |atoms| && k != c && !Fresh(atoms, r, k)
      ensures r[k].(nbhd := atoms[k].nbhd) == atoms[k]
    {
      assert !Fresh(a, r, k) && !Fresh(atoms, a, k);
    }
  }

  /** The conflict outcome, from the opened atoms. */
  lemma ConflictChain(atoms: seq<ShellAtom>, a: seq<ShellAtom>, r: seq<ShellAtom>, c: nat)
    requires SameUse(atoms, a) && Persists(atoms, a) && Retargeted(atoms, a, c, HYDRO_PATTERN_F)
    requires r == Flagged(a, c, SHELL_F) && (Tidy(atoms) ==> Tidy(a))
    ensures SameUse(a, r) && SameUse(atoms, r) && Persists(atoms, r) && Retargeted(atoms, r, c, SHELL_F)
    ensures Lists(r) == Lists(a) && (Tidy(atoms) ==> Tidy(r))
  {
    FlaggedLists(a, c, SHELL_F);
  }

  /** Both insertions on a conflict: c ends SHELL_F without edges, and nothing else changes. */
  lemma OpenedConflict(atoms: seq<ShellAtom>, c: nat)
    requires Consistent(Lists(atoms)) && c < |atoms| && Used(atoms[c])
    ensures var r := Flagged(Opened(atoms, c), c, SHELL_F);
      Consistent(Lists(r)) && (Tidy(atoms) ==> Tidy(r)) && |r| == |atoms| && Persists(atoms, r) &&
      Retargeted(atoms, r, c, SHELL_F) && AtomCount(r) == AtomCount(atoms) &&
      EdgesBut(Lists(r), Lists(atoms), c)
  {
    var a := Opened(atoms, c);
    var r := Flagged(a, c, SHELL_F);
    OpenedFacts(atoms, c);
    OpenedLengths(atoms, c);
    OpenedCompose(atoms, a, c);
    ConflictChain(atoms, a, r, c);
    AtomCountSameUse(a, r);
  }

  /** insertAcceptor1 without a conflict. */
  lemma AcceptorGrown(atoms: seq<ShellAtom>, c: nat, pts: seq<Point>)
    requires Consistent(Lists(atoms)) && c < |atoms| && Used(atoms[c])
    ensures var r := Fan(Opened(atoms, c), c, pts, LINKABLE_F);
      Consistent(Lists(r)) && (Tidy(atoms) ==> Tidy(r)) && Persists(atoms, r) &&
      Retargeted(atoms, r, c, HYDRO_PATTERN_F) && AtomCount(r) == AtomCount(atoms) + |pts| &&
      FreshAre(atoms, r, LINKABLE_F, pts) && Rewired(Lists(r), Lists(atoms), c, atoms, r)
  {
    var a := Opened(atoms, c);
    var r := Fan(a, c, pts, LINKABLE_F);
    OpenedFacts(atoms, c);
    OpenedLengths(atoms, c);
    OpenedCompose(atoms, a, c);
    FanFacts(a, c, pts, LINKABLE_F);
    PersistsTrans(atoms, a, r);
    FreshSameUse(a, atoms, r);
    RewiredChain(Lists(atoms), Lists(a), Lists(r), c, atoms, a, r);
    RetargetChain(atoms, a, r, c, HYDRO_PATTERN_F);
  }

  /** insertAcceptor1 on a used atom c of consistent buffers. Both outcomes first flag c
      HYDRO_PATTERN_F and remove every edge at c. On a conflict c then becomes SHELL_F and
      nothing else changes. Otherwise c stays HYDRO_PATTERN_F and one LINKABLE_F atom without
      parent is added at each position, joined to c and to nothing else, so that these are
      exactly the neighbours of c; SHL_nbAtom grows by the number of positions. */
  lemma AcceptorFacts(atoms: seq<ShellAtom>, c: nat, pts: seq<Point>)
    requires Consistent(Lists(atoms)) && c < |atoms| && Used(atoms[c])
    ensures var r := Acceptor(atoms, c, pts);
      Consistent(Lists(r)) && (Tidy(atoms) ==> Tidy(r)) && Persists(atoms, r)
    ensures var a, r := Opened(atoms, c), Acceptor(atoms, c, pts);
      Crowded(a, pts) ==>
        |r| == |atoms| && Retargeted(atoms, r, c, SHELL_F) &&
        AtomCount(r) == AtomCount(atoms) && EdgesBut(Lists(r), Lists(atoms), c)
    ensures var a, r := Opened(atoms, c), Acceptor(atoms, c, pts);
      !Crowded(a, pts) ==>
        Retargeted(atoms, r, c, HYDRO_PATTERN_F) && AtomCount(r) == AtomCount(atoms) + |pts| &&
        FreshAre(atoms, r, LINKABLE_F, pts) && Rewired(Lists(r), Lists(atoms), c, atoms, r)
  {
    if Crowded(Opened(atoms, c), pts) {
      OpenedConflict(atoms, c);
    } else {
      AcceptorGrown(atoms, c, pts);
    }
  }

  /** The atoms r has and atoms has not, other than slot d, have flag f, no parent and one of
      the positions pts. */
  ghost predicate FreshAreBut(atoms: seq<ShellAtom>, r: seq<ShellAtom>, d: int, f: int, pts: seq<Point>)
  {
    forall k :: Fresh(atoms, r, k) && k != d ==> r[k].flag == f && r[k].parent == -1 && r[k].coords in pts
  }

  /** The edges of a donor, from those of opening, of the centre and of the fan. */
  lemma RewiredViaChain(L0: seq<seq<int>>, La: seq<seq<int>>, L1: seq<seq<int>>, L: seq<seq<int>>,
                        c: int, d: int, atoms: seq<ShellAtom>, r1: seq<ShellAtom>, r: seq<ShellAtom>)
    requires EdgesBut(La, L0, c) && OneMoreEdge(L1, La, c, d) && Spokes(L, L1, d, r1, r)
    requires forall k :: Fresh(atoms, r, k) <==> k == d || Fresh(r1, r, k)
    requires !Fresh(r1, r, d)
    ensures RewiredVia(L, L0, c, d, atoms, r)
  {
  }

  /** The slots of a donor, from those of opening, of the centre and of the fan. */
  lemma DonorSlotsChain(atoms: seq<ShellAtom>, a: seq<ShellAtom>, r1: seq<ShellAtom>, r: seq<ShellAtom>,
                        d: int, pts: seq<Point>)
    requires SameUse(atoms, a) && Persists(atoms, a) && Persists(a, r1) && Persists(r1, r)
    requires OnlyFresh(a, r1, d) && KeptBut(a, r1, d) && KeptOld(r1, r) && FreshAre(r1, r, LINKABLE_F, pts)
    requires 0 <= d < |r1|
    ensures Persists(atoms, r) && Fresh(atoms, r, d) && r[d].(nbhd := r1[d].nbhd) == r1[d]
    ensures KeptOld(a, r) && (forall k :: Fresh(a, r, k) == Fresh(atoms, r, k))
    ensures forall k :: Fresh(atoms, r, k) <==> k == d || Fresh(r1, r, k)
    ensures !Fresh(r1, r, d) && FreshAreBut(atoms, r, d, LINKABLE_F, pts)
  {
    PersistsTrans(atoms, a, r1);
    PersistsTrans(atoms, r1, r);
    FreshTrans(a, r1, r, d);
    FreshSameUse(a, atoms, r);
    assert Fresh(a, r1, d) && !Fresh(r1, r, d);
    forall k | 0 <= k < |a| && !Fresh(a, r, k)
      ensures r[k].(nbhd := a[k].nbhd) == a[k]
    {
      assert k != d && !Fresh(r1, r, k);
    }
  }

  /** insertDonor1 and insertDonor2 without a conflict. */
  lemma DonorGrown(atoms: seq<ShellAtom>, c: nat, centre: Point, pts: seq<Point>)
    requires Consistent(Lists(atoms)) && c < |atoms| && Used(atoms[c])
    ensures var a := Opened(atoms, c);
      var r, d := Fan(Sprouted(a, c, centre, HYDRO_PATTERN_F), FirstUnusedAtom(a), pts, LINKABLE_F), FirstUnusedAtom(atoms);
      Consistent(Lists(r)) && (Tidy(atoms) ==> Tidy(r)) && Persists(atoms, r) &&
      Retargeted(atoms, r, c, HYDRO_PATTERN_F) &&
      d != c && Fresh(atoms, r, d) && r[d].flag == HYDRO_PATTERN_F && r[d].coords == centre &&
      r[d].parent == -1 && FreshAreBut(atoms, r, d, LINKABLE_F, pts) &&
      AtomCount(r) == AtomCount(atoms) + 1 + |pts| &&
      RewiredVia(Lists(r), Lists(atoms), c, d, atoms, r)
  {
    var a := Opened(atoms, c);
    var d := FirstUnusedAtom(a);
    var r1 := Sprouted(a, c, centre, HYDRO_PATTERN_F);
    var r := Fan(r1, d, pts, LINKABLE_F);
    OpenedFacts(atoms, c);
    OpenedLengths(atoms, c);
    OpenedCompose(atoms, a, c);
    SproutedFacts(a, c, centre, HYDRO_PATTERN_F);
    FanFacts(r1, d, pts, LINKABLE_F);
    DonorSlotsChain(atoms, a, r1, r, d, pts);
    RewiredViaChain(Lists(atoms), Lists(a), Lists(r1), Lists(r), c, d, atoms, r1, r);
    RetargetChain(atoms, a, r, c, HYDRO_PATTERN_F);
  }

  /** insertDonor1 and insertDonor2 on a used atom c of consistent buffers. Both outcomes first
      flag c HYDRO_PATTERN_F and remove every edge at c. On a conflict with the centre or one of
      the positions c then becomes SHELL_F and nothing else changes. Otherwise c stays
      HYDRO_PATTERN_F, a HYDRO_PATTERN_F centre without parent is added in the first unused
      slot d, and one LINKABLE_F atom without parent per position; the only new edges are c-d
      and one between d and each of the other new atoms; SHL_nbAtom grows by one more than the
      number of positions. */
  lemma DonorFacts(atoms: seq<ShellAtom>, c: nat, centre: Point, pts: seq<Point>)
    requires Consistent(Lists(atoms)) && c < |atoms| && Used(atoms[c])
    ensures var r := Donor(atoms, c, centre, pts);
      Consistent(Lists(r)) && (Tidy(atoms) ==> Tidy(r)) && Persists(atoms, r)
    ensures var a, r := Opened(atoms, c), Donor(atoms, c, centre, pts);
      Crowded(a, [centre] + pts) ==>
        |r| == |atoms| && Retargeted(atoms, r, c, SHELL_F) &&
        AtomCount(r) == AtomCount(atoms) && EdgesBut(Lists(r), Lists(atoms), c)
    ensures var a, r, d := Opened(atoms, c), Donor(atoms, c, centre, pts), FirstUnusedAtom(atoms);
      !Crowded(a, [centre] + pts) ==>
        Retargeted(atoms, r, c, HYDRO_PATTERN_F) &&
        d != c && Fresh(atoms, r, d) && r[d].flag == HYDRO_PATTERN_F && r[d].coords == centre &&
        r[d].parent == -1 && FreshAreBut(atoms, r, d, LINKABLE_F, pts) &&
        AtomCount(r) == AtomCount(atoms) + 1 + |pts| &&
        RewiredVia(Lists(r), Lists(atoms), c, d, atoms, r)
  {
    if Crowded(Opened(atoms, c), [centre] + pts) {
      OpenedConflict(atoms, c);
    } else {
      DonorGrown(atoms, c, centre, pts);
    }
  }

  /*********************************************************************************************
   * The insertions
   *********************************************************************************************/

  /** The loop that removes every edge of c, one first neighbour at a time, until the buffer of c
      starts with a free slot. The source also collects the removed neighbours in a list that it
      then frees unused. */
  method Strip(s: Shell, c: nat)
    requires c < |s.atoms| && |s.atoms[c].nbhd| > 0 && Consistent(Lists(s.atoms))
    modifies s
    ensures s.atoms == Stripped(old(s.atoms), c) && s.cycle == old(s.cycle)
  {
    while s.atoms[c].nbhd[0] != FREE
      invariant c < |s.atoms| && |s.atoms[c].nbhd| == |old(s.atoms)[c].nbhd| && Consistent(Lists(s.atoms))
      invariant Stripped(s.atoms, c) == Stripped(old(s.atoms), c) && s.cycle == old(s.cycle)
      decreases |Ids(s.atoms[c].nbhd)|
    {
      StripStep(s.atoms, c);
      s.RemoveEdge(c, s.atoms[c].nbhd[0]);
    }
    StripDone(s.atoms, c);
  }

  /** The conflict scan of the insertions: whether some solid atom lies closer than
      DIST_GAP_CAGE to one of the positions pts. */
  method Clash(s: Shell, pts: seq<Point>) returns (clash: bool)
    ensures clash == Crowded(s.atoms, pts)
  {
    var i := 0;
    while i < |s.atoms|
      invariant i <= |s.atoms|
      invariant forall k :: 0 <= k < i ==> !(Solid(s.atoms[k]) && NearAny(s.atoms[k].coords, pts))
    {
      if Solid(s.atoms[i]) && NearAny(s.atoms[i].coords, pts) {
        return true;
      }
      i := i + 1;
    }
    return false;
  }

  /** The first two steps of every insertion: c takes HYDRO_PATTERN_F and loses its edges. */
  method Open(s: Shell, c: nat)
    requires c < |s.atoms| && |s.atoms[c].nbhd| > 0 && Consistent(Lists(s.atoms))
    modifies s
    ensures s.atoms == Opened(old(s.atoms), c) && s.cycle == old(s.cycle)
  {
    s.atoms := Flagged(s.atoms, c, HYDRO_PATTERN_F);
    FlaggedLists(old(s.atoms), c, HYDRO_PATTERN_F);
    Strip(s, c);
  }

  /** SHL_addAtom at p without parent followed by SHL_addEdge from anchor to the new atom. */
  method AddPatternAtom(s: Shell, anchor: int, p: Point) returns (index: nat)
    modifies s
    ensures index == FirstUnusedAtom(old(s.atoms)) && index < |s.atoms| && s.atoms[index].flag == SHELL_F
    ensures s.atoms == EdgeAdded(AtomAdded(old(s.atoms), p, -1), anchor, index) && s.cycle == old(s.cycle)
  {
    SproutedSplit(s.atoms, anchor, p, SHELL_F);
    index := s.AddAtom(p, -1);
    s.AddEdge(anchor, index);
  }

  /** A pattern atom at p joined to anchor, whose flag is then raised to LINKABLE_F when lower. */
  method AddLinkable(s: Shell, anchor: int, p: Point)
    modifies s
    ensures s.atoms == Sprouted(old(s.atoms), anchor, p, LINKABLE_F) && s.cycle == old(s.cycle)
  {
    var index := AddPatternAtom(s, anchor, p);
    if s.atoms[index].flag < LINKABLE_F {
      s.atoms := Flagged(s.atoms, index, LINKABLE_F);
    }
  }

  /** A pattern atom at p joined to anchor, whose flag is then set to f; returns its slot. */
  method AddFlagged(s: Shell, anchor: int, p: Point, f: int) returns (index: nat)
    modifies s
    ensures index == FirstUnusedAtom(old(s.atoms))
    ensures s.atoms == Sprouted(old(s.atoms), anchor, p, f) && s.cycle == old(s.cycle)
  {
    index := AddPatternAtom(s, anchor, p);
    s.atoms := Flagged(s.atoms, index, f);
  }

  /** A fan over two or three positions is that many pattern atoms in order. */
  lemma FanSmall(atoms: seq<ShellAtom>, anchor: int, x1: Point, x2: Point, x3: Point, f: int)
    ensures Fan(atoms, anchor, [x1, x2], f) == Fan(Sprouted(atoms, anchor, x1, f), anchor, [x2], f)
    ensures Fan(atoms, anchor, [x1, x2, x3], f) == Fan(Sprouted(atoms, anchor, x1, f), anchor, [x2, x3], f)
    ensures Fan(atoms, anchor, [x1], f) == Sprouted(atoms, anchor, x1, f)
  {
    assert [x1, x2][1..] == [x2] && [x1, x2, x3][1..] == [x2, x3] && [x1][1..] == [];
  }

  /** insertAcceptor1 on c, given the two positions x1 and x2 that the source computes from the
      normal and the direction: the atoms become those of Acceptor. */
  method InsertAcceptor1(s: Shell, c: nat, x1: Point, x2: Point)
    requires c < |s.atoms| && |s.atoms[c].nbhd| > 0 && Consistent(Lists(s.atoms))
    modifies s
    ensures s.atoms == Acceptor(old(s.atoms), c, [x1, x2]) && s.cycle == old(s.cycle)
  {
    Open(s, c);
    var clash := Clash(s, [x1, x2]);
    if clash {
      s.atoms := Flagged(s.atoms, c, SHELL_F);
      return;
    }
    ghost var a := s.atoms;
    AddLinkable(s, c, x1);
    ghost var a1 := s.atoms;
    AddLinkable(s, c, x2);
    FanSmall(a, c, x1, x2, x2, LINKABLE_F);
    FanSmall(a1, c, x2, x2, x2, LINKABLE_F);
  }

  /** insertDonor1 on c, given the centre and the two positions x1 and x2 that the source
      computes from the normal and the direction: the atoms become those of Donor. */
  method InsertDonor1(s: Shell, c: nat, centre: Point, x1: Point, x2: Point)
    requires c < |s.atoms| && |s.atoms[c].nbhd| > 0 && Consistent(Lists(s.atoms))
    modifies s
    ensures s.atoms == Donor(old(s.atoms), c, centre, [x1, x2]) && s.cycle == old(s.cycle)
  {
    Open(s, c);
    var clash := Clash(s, [centre] + [x1, x2]);
    if clash {
      s.atoms := Flagged(s.atoms, c, SHELL_F);
      return;
    }
    ghost var a := s.atoms;
    var idc := AddFlagged(s, c, centre, HYDRO_PATTERN_F);
    ghost var a0 := s.atoms;
    AddLinkable(s, idc, x1);
    ghost var a1 := s.atoms;
    AddLinkable(s, idc, x2);
    FanSmall(a0, idc, x1, x2, x2, LINKABLE_F);
    FanSmall(a1, idc, x2, x2, x2, LINKABLE_F);
  }

  /** insertDonor2 on c, given the centre and the three other vertices x2, x3 and x4 of the
      tetrahedron that the source computes from the normal and the direction: the atoms become
      those of Donor. */
  method InsertDonor2(s: Shell, c: nat, centre: Point, x2: Point, x3: Point, x4: Point)
    requires c < |s.atoms| && |s.atoms[c].nbhd| > 0 && Consistent(Lists(s.atoms))
    modifies s
    ensures s.atoms == Donor(old(s.atoms), c, centre, [x2, x3, x4]) && s.cycle == old(s.cycle)
  {
    Open(s, c);
    var clash := Clash(s, [centre] + [x2, x3, x4]);
    if clash {
      s.atoms := Flagged(s.atoms, c, SHELL_F);
      return;
    }
    ghost var a := s.atoms;
    var idc := AddFlagged(s, c, centre, HYDRO_PATTERN_F);
    ghost var a0 := s.atoms;
    var index := AddFlagged(s, idc, x2, LINKABLE_F);
    ghost var a1 := s.atoms;
    index := AddFlagged(s, idc, x3, LINKABLE_F);
    ghost var a2 := s.atoms;
    index := AddFlagged(s, idc, x4, LINKABLE_F);
    FanSmall(a0, idc, x2, x3, x4, LINKABLE_F);
    FanSmall(a1, idc, x3, x4, x4, LINKABLE_F);
    FanSmall(a2, idc, x4, x4, x4, LINKABLE_F);
  }

  /*********************************************************************************************
   * Hydrogen-bond patterns
   *********************************************************************************************/

  /** The three patterns generateHydrogenPattern chooses from. */
  datatype PatternKind = AcceptorPattern | TriangularDonor | TetrahedralDonor

  /** The positions of a pattern, which the source computes from the substrate and the cage atom
      with rotations and the AX*E* placers: the acceptor uses x1 and x2, insertDonor1 the centre,
      x1 and x2, insertDonor2 the centre, x1, x2 and x3. */
  datatype Placement = Placement(centre: Point, x1: Point, x2: Point, x3: Point)

  /** The pattern for a cage atom whose substrate parent is a: the acceptor for a hydrogen,
      insertDonor1 for steric number 3 and insertDonor2 otherwise. */
  function KindOf(a: Molecules.Atom): (k: PatternKind)
    ensures k == AcceptorPattern <==> a.symbol == "H"
    ensures k == TriangularDonor <==> a.symbol != "H" && Molecules.Steric(a) == 3
  {
    if a.symbol == "H" then AcceptorPattern
    else if Molecules.Steric(a) == 3 then TriangularDonor
    else TetrahedralDonor
  }

  /** The number of atoms a pattern adds when it fits. */
  function PatternSize(k: PatternKind): nat
  {
    match k
    case AcceptorPattern => 2
    case TriangularDonor => 3
    case TetrahedralDonor => 4
  }

  /** The atoms after inserting the pattern of kind k on c at the positions pl. */
  function Inserted(atoms: seq<ShellAtom>, c: nat, k: PatternKind, pl: Placement): seq<ShellAtom>
    requires c < |atoms|
  {
    match k
    case AcceptorPattern => Acceptor(atoms, c, [pl.x1, pl.x2])
    case TriangularDonor => Donor(atoms, c, pl.centre, [pl.x1, pl.x2])
    case TetrahedralDonor => Donor(atoms, c, pl.centre, [pl.x1, pl.x2, pl.x3])
  }

  /** r keeps what every insertion keeps of atoms: consistent buffers, tidiness, and every used
      atom in its slot with its parent and position. */
  ghost predicate Preserves(atoms: seq<ShellAtom>, r: seq<ShellAtom>)
  {
    Consistent(Lists(r)) && (Tidy(atoms) ==> Tidy(r)) && Persists(atoms, r)
  }

  /** Atom c of r is HYDRO_PATTERN_F and r holds n more atoms than atoms, or c is SHELL_F and the
      number of atoms has not changed. */
  ghost predicate Outcome(atoms: seq<ShellAtom>, r: seq<ShellAtom>, c: nat, n: nat)
  {
    c < |r| &&
    ((r[c].flag == SHELL_F && AtomCount(r) == AtomCount(atoms)) ||
     (r[c].flag == HYDRO_PATTERN_F && AtomCount(r) == AtomCount(atoms) + n))
  }

  /** The outcome of insertAcceptor1 as one disjunction. */
  lemma AcceptorOutcome(atoms: seq<ShellAtom>, c: nat, pts: seq<Point>)
    requires Consistent(Lists(atoms)) && c < |atoms| && Used(atoms[c])
    ensures Preserves(atoms, Acceptor(atoms, c, pts)) && Outcome(atoms, Acceptor(atoms, c, pts), c, |pts|)
  {
    AcceptorFacts(atoms, c, pts);
  }

  /** The outcome of insertDonor1 and insertDonor2 as one disjunction. */
  lemma DonorOutcome(atoms: seq<ShellAtom>, c: nat, centre: Point, pts: seq<Point>)
    requires Consistent(Lists(atoms)) && c < |atoms| && Used(atoms[c])
    ensures Preserves(atoms, Donor(atoms, c, centre, pts)) && Outcome(atoms, Donor(atoms, c, centre, pts), c, 1 + |pts|)
  {
    DonorFacts(atoms, c, centre, pts);
  }

  /** Any insertion on a used atom c of consistent buffers: the buffers stay consistent, no used
      atom goes, moves or changes parent, c ends HYDRO_PATTERN_F with the whole pattern added or
      SHELL_F with nothing added. */
  lemma InsertedFacts(atoms: seq<ShellAtom>, c: nat, k: PatternKind, pl: Placement)
    requires Consistent(Lists(atoms)) && c < |atoms| && Used(atoms[c])
    ensures Preserves(atoms, Inserted(atoms, c, k, pl)) && Outcome(atoms, Inserted(atoms, c, k, pl), c, PatternSize(k))
  {
    match k
    case AcceptorPattern =>
      var pts := [pl.x1, pl.x2];
      AcceptorOutcome(atoms, c, pts);
      assert |pts| == 2;
    case TriangularDonor =>
      var pts := [pl.x1, pl.x2];
      DonorOutcome(atoms, c, pl.centre, pts);
      assert 1 + |pts| == 3;
    case TetrahedralDonor =>
      var pts := [pl.x1, pl.x2, pl.x3];
      DonorOutcome(atoms, c, pl.centre, pts);
      assert 1 + |pts| == 4;
  }

  /** Another solid atom lies closer than DIST_GAP_CAGE to atom id. */
  predicate TooClose(atoms: seq<ShellAtom>, id: nat)
    requires id < |atoms|
  {
    exists k :: 0 <= k < |atoms| && k != id && Solid(atoms[k]) && DistInf(atoms[k].coords, atoms[id].coords, DIST_GAP_CAGE)
  }

  /** What generateHydrogenPattern relies on: consistent buffers, and every dependency vertex
      names a used cage atom with an allocated buffer whose parent is one of n substrate atoms. */
  ghost predicate Ready(atoms: seq<ShellAtom>, vs: seq<Vertex>, n: nat)
  {
    Consistent(Lists(atoms)) &&
    forall j :: 0 <= j < |vs| && vs[j].id != FREE ==>
      0 <= vs[j].id < |atoms| && Used(atoms[vs[j].id]) && |atoms[vs[j].id].nbhd| > 0 &&
      0 <= atoms[vs[j].id].parent < n
  }

  /** Readiness survives a step that keeps the used atoms and the consistency. */
  lemma ReadyKept(atoms: seq<ShellAtom>, r: seq<ShellAtom>, vs: seq<Vertex>, n: nat)
    requires Ready(atoms, vs, n) && Persists(atoms, r) && Consistent(Lists(r))
    ensures Ready(r, vs, n)
  {
    forall j | 0 <= j < |vs| && vs[j].id != FREE
      ensures 0 <= vs[j].id < |r| && Used(r[vs[j].id]) && |r[vs[j].id].nbhd| > 0 && 0 <= r[vs[j].id].parent < n
    {
      assert Used(atoms[vs[j].id]);
    }
  }

  /** One step of generateHydrogenPattern, on the vertex id of the dependency graph: nothing for
      a free vertex or an atom with a solid atom too close, otherwise the pattern of its parent. */
  function HydrogenStep(atoms: seq<ShellAtom>, id: int, mol: seq<Molecules.Atom>, place: int -> Placement): seq<ShellAtom>
  {
    if id == FREE || !(0 <= id < |atoms| && 0 <= atoms[id].parent < |mol|) || TooClose(atoms, id) then atoms
    else Inserted(atoms, id, KindOf(mol[atoms[id].parent]), place(id))
  }

  /** Preserves is transitive. */
  lemma PreservesTrans(a: seq<ShellAtom>, b: seq<ShellAtom>, c: seq<ShellAtom>)
    requires Preserves(a, b) && Preserves(b, c)
    ensures Preserves(a, c)
  {
    PersistsTrans(a, b, c);
  }

  /** One step skips a free vertex and an atom with a solid atom too close, and otherwise flags
      its atom HYDRO_PATTERN_F with the whole pattern of its parent added, or SHELL_F with
      nothing added; readiness survives, and so does what every insertion keeps. */
  lemma HydrogenStepFacts(atoms: seq<ShellAtom>, vs: seq<Vertex>, j: nat, mol: seq<Molecules.Atom>, place: int -> Placement)
    requires Ready(atoms, vs, |mol|) && j < |vs|
    ensures Ready(HydrogenStep(atoms, vs[j].id, mol, place), vs, |mol|)
    ensures Preserves(atoms, HydrogenStep(atoms, vs[j].id, mol, place))
    ensures AtomCount(atoms) <= AtomCount(HydrogenStep(atoms, vs[j].id, mol, place))
    ensures vs[j].id == FREE || TooClose(atoms, vs[j].id) ==> HydrogenStep(atoms, vs[j].id, mol, place) == atoms
    ensures vs[j].id != FREE && !TooClose(atoms, vs[j].id) ==>
      Outcome(atoms, HydrogenStep(atoms, vs[j].id, mol, place), vs[j].id, PatternSize(KindOf(mol[atoms[vs[j].id].parent])))
  {
    var id := vs[j].id;
    if id != FREE && !TooClose(atoms, id) {
      var r := HydrogenStep(atoms, id, mol, place);
      InsertedFacts(atoms, id, KindOf(mol[atoms[id].parent]), place(id));
      ReadyKept(atoms, r, vs, |mol|);
    }
  }

  /** Readiness at one vertex. */
  lemma ReadyAt(atoms: seq<ShellAtom>, vs: seq<Vertex>, j: nat, n: nat)
    requires Ready(atoms, vs, n) && j < |vs|
    ensures vs[j].id != FREE ==>
      0 <= vs[j].id < |atoms| && Used(atoms[vs[j].id]) && |atoms[vs[j].id].nbhd| > 0 &&
      0 <= atoms[vs[j].id].parent < n
  {
  }

  /** The atoms after the steps of generateHydrogenPattern on the first j vertices. */
  ghost function HydrogenPattern(atoms: seq<ShellAtom>, vs: seq<Vertex>, j: nat, mol: seq<Molecules.Atom>,
                                 place: int -> Placement): seq<ShellAtom>
    requires j <= |vs|
    decreases j
  {
    if j == 0 then atoms
    else HydrogenStep(HydrogenPattern(atoms, vs, j - 1, mol, place), vs[j - 1].id, mol, place)
  }

  /** a is reached from atoms by steps of generateHydrogenPattern over vs: it is ready for the
      remaining steps, it keeps what every insertion keeps, and it has no fewer atoms. */
  ghost predicate Reached(atoms: seq<ShellAtom>, a: seq<ShellAtom>, vs: seq<Vertex>, n: nat)
  {
    Ready(a, vs, n) && Preserves(atoms, a) && AtomCount(atoms) <= AtomCount(a)
  }

  /** One more step keeps a reached state reached. */
  lemma HydrogenChain(atoms: seq<ShellAtom>, a: seq<ShellAtom>, vs: seq<Vertex>, j: nat, mol: seq<Molecules.Atom>,
                      place: int -> Placement)
    requires Reached(atoms, a, vs, |mol|) && j < |vs|
    ensures Reached(atoms, HydrogenStep(a, vs[j].id, mol, place), vs, |mol|)
  {
    HydrogenStepFacts(a, vs, j, mol, place);
    PreservesTrans(atoms, a, HydrogenStep(a, vs[j].id, mol, place));
  }

  /** Whatever every step keeps holds after the steps on the first j vertices. */
  lemma {:induction false} HydrogenPatternKeeps(atoms: seq<ShellAtom>, vs: seq<Vertex>, j: nat, mol: seq<Molecules.Atom>,
                                   place: int -> Placement, inv: seq<ShellAtom> -> bool)
    requires j <= |vs| && inv(atoms)
    requires forall a, k :: 0 <= k < |vs| && inv(a) ==> inv(HydrogenStep(a, vs[k].id, mol, place))
    ensures inv(HydrogenPattern(atoms, vs, j, mol, place))
    decreases j
  {
    if j > 0 {
      HydrogenPatternKeeps(atoms, vs, j - 1, mol, place, inv);
      var a := HydrogenPattern(atoms, vs, j - 1, mol, place);
      assert inv(a) ==> inv(HydrogenStep(a, vs[j - 1].id, mol, place));
    }
  }

  /** Every step of generateHydrogenPattern keeps readiness and what every insertion keeps, and
      never lowers the number of atoms. */
  lemma HydrogenPatternFacts(atoms: seq<ShellAtom>, vs: seq<Vertex>, j: nat,
                                                mol: seq<Molecules.Atom>, place: int -> Placement)
    requires Ready(atoms, vs, |mol|) && j <= |vs|
    ensures Reached(atoms, HydrogenPattern(atoms, vs, j, mol, place), vs, |mol|)
  {
    forall a, k | 0 <= k < |vs| && Reached(atoms, a, vs, |mol|)
      ensures Reached(atoms, HydrogenStep(a, vs[k].id, mol, place), vs, |mol|)
    {
      HydrogenChain(atoms, a, vs, k, mol, place);
    }
    assert Preserves(atoms, atoms);
    HydrogenPatternKeeps(atoms, vs, j, mol, place, a => Reached(atoms, a, vs, |mol|));
  }

  /** Before step j, the vertex of step j names a used atom with an allocated buffer whose parent
      is a substrate atom, in consistent buffers. */
  lemma HydrogenReady(atoms: seq<ShellAtom>, vs: seq<Vertex>, j: nat, mol: seq<Molecules.Atom>,
                      place: int -> Placement)
    requires Ready(atoms, vs, |mol|) && j < |vs|
    ensures var a, id := HydrogenPattern(atoms, vs, j, mol, place), vs[j].id;
      Consistent(Lists(a)) &&
      (id != FREE ==> 0 <= id < |a| && 0 <= a[id].parent < |mol| && |a[id].nbhd| > 0)
  {
    HydrogenPatternFacts(atoms, vs, j, mol, place);
    ReadyAt(HydrogenPattern(atoms, vs, j, mol, place), vs, j, |mol|);
  }

  /** The scan for a solid atom too close to atom id, stopping at the first. */
  method Crowding(s: Shell, id: nat) returns (tooClose: bool)
    requires id < |s.atoms|
    ensures tooClose == TooClose(s.atoms, id)
  {
    var k := 0;
    while k < |s.atoms|
      invariant k <= |s.atoms|
      invariant forall i :: 0 <= i < k ==>
        !(i != id && Solid(s.atoms[i]) && DistInf(s.atoms[i].coords, s.atoms[id].coords, DIST_GAP_CAGE))
    {
      if k != id && Solid(s.atoms[k]) && DistInf(s.atoms[k].coords, s.atoms[id].coords, DIST_GAP_CAGE) {
        return true;
      }
      k := k + 1;
    }
    return false;
  }

  /** The body of the loop of generateHydrogenPattern for the vertex id. */
  method HydrogenAt(s: Shell, id: int, mol: seq<Molecules.Atom>, place: int -> Placement)
    requires id != FREE ==> 0 <= id < |s.atoms| && 0 <= s.atoms[id].parent < |mol| && |s.atoms[id].nbhd| > 0
    requires Consistent(Lists(s.atoms))
    modifies s
    ensures s.atoms == HydrogenStep(old(s.atoms), id, mol, place) && s.cycle == old(s.cycle)
  {
    if id != FREE {
      var tooClose := Crowding(s, id);
      if !tooClose {
        var parentAtom := mol[s.atoms[id].parent];
        var pl := place(id);
        if parentAtom.symbol == "H" {
          InsertAcceptor1(s, id, pl.x1, pl.x2);
        } else {
          var haveTriangularGeometry := Molecules.Steric(parentAtom) == 3;
          if haveTriangularGeometry {
            InsertDonor1(s, id, pl.centre, pl.x1, pl.x2);
          } else {
            InsertDonor2(s, id, pl.centre, pl.x1, pl.x2, pl.x3);
          }
        }
      }
    }
  }

  /** The loop of generateHydrogenPattern over the vertices vs of the dependency graph of s. */
  method HydrogenPass(s: Shell, vs: seq<Vertex>, mol: seq<Molecules.Atom>, place: int -> Placement)
    requires Ready(s.atoms, vs, |mol|)
    modifies s
    ensures s.atoms == HydrogenPattern(old(s.atoms), vs, |vs|, mol, place) && s.cycle == old(s.cycle)
  {
    ghost var atoms := s.atoms;
    for j := 0 to |vs|
      invariant s.cycle == old(s.cycle)
      invariant s.atoms == HydrogenPattern(atoms, vs, j, mol, place)
    {
      HydrogenReady(atoms, vs, j, mol, place);
      HydrogenAt(s, vs[j].id, mol, place);
    }
  }

  /** generateHydrogenPattern on cage 0, with the positions of each pattern given by place: the
      atoms of the cage become HydrogenPattern over every vertex of its dependency graph, which
      is left as it was. */
  method GenerateHydrogenPattern(m: Mains.Main, place: int -> Placement)
    requires |m.mocs| > 0 && m.mocs[0] != null && m.substrat != null
    requires Ready(m.mocs[0].atoms, m.mocs[0].bond.vertices, |m.substrat.atoms|)
    modifies m.mocs[0]
    ensures m.mocs[0].atoms ==
      HydrogenPattern(old(m.mocs[0].atoms), m.mocs[0].bond.vertices, |m.mocs[0].bond.vertices|, m.substrat.atoms, place)
    ensures m.mocs[0].cycle == old(m.mocs[0].cycle)
  {
    var s := m.mocs[0];
    HydrogenPass(s, s.bond.vertices, m.substrat.atoms, place);
  }
}
