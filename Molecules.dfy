/**
 * The substrate molecule Molecule_t of src/structureMol.c: an array of atoms, each with its
 * chemical data (symbol, radius, ligand and lone-pair counts), its coordinates and its neighbour
 * list (an IdLists buffer), plus the list of atoms on a cycle and the bond graph of hydrogen
 * bonding groups.
 *
 * Unlike LST_removeElement, MOL_removeNeighbor frees the slot in place and shifts nothing, so a
 * neighbour list can hold a free slot before a stored id; MOL_nbLigands counts stored ids among
 * the first four slots whatever their order.
 */
module Molecules {
  import opened Constants
  import opened Options
  import opened IdLists
  import opened Graphs
  import opened Points
  import opened Degrees
  import opened Adjacency

  datatype Atom = Atom(symbol: string, radius: int, ligands: int, lonePairs: int, coords: Point,
                       nbhd: seq<int>)

  /** An atom as MOL_createAtom leaves it. */
  const NewAtom: Atom := Atom("", -1, -1, -1, Point(0.0, 0.0, 0.0), [])

  /** steric(a): ligands plus lone pairs. */
  function Steric(a: Atom): int
  {
    a.ligands + a.lonePairs
  }

  /*********************************************************************************************
   * Neighbour lists
   *********************************************************************************************/

  /** The buffer after MOL_removeNeighbor: the slot LST_getIndice finds becomes free. */
  function Holed(s: seq<int>, id: int): seq<int>
  {
    var p := IndexOf(s, id);
    if p == -1 then s else s[p := FREE]
  }

  /** The number MOL_nbLigands stores: used slots among the first four. */
  function LigandCount(s: seq<int>): nat
    requires |s| >= 4
  {
    CountIds(s[..4])
  }

  /** The neighbour buffers of the atoms. */
  function Lists(atoms: seq<Atom>): (ls: seq<seq<int>>)
    ensures |ls| == |atoms| && forall i :: 0 <= i < |atoms| ==> ls[i] == atoms[i].nbhd
  {
    seq(|atoms|, i requires 0 <= i < |atoms| => atoms[i].nbhd)
  }

  /** Every id a scan of a neighbour list sees is an atom index. */
  ghost predicate NeighboursInRange(atoms: seq<Atom>)
  {
    forall i, x :: 0 <= i < |atoms| && x in Ids(atoms[i].nbhd) ==> 0 <= x < |atoms|
  }

  /** The atoms after MOL_addEdge(id1, id2): each becomes a neighbour of the other, unless the
      two ids are equal. */
  function EdgeAdded(atoms: seq<Atom>, id1: nat, id2: nat): seq<Atom>
    requires id1 < |atoms| && id2 < |atoms|
  {
    if id1 == id2 then atoms
    else
      var a := atoms[id1 := atoms[id1].(nbhd := Added(atoms[id1].nbhd, id2))];
      a[id2 := a[id2].(nbhd := Added(a[id2].nbhd, id1))]
  }

  /** The atoms after MOL_removeEdge(id1, id2). */
  function EdgeRemoved(atoms: seq<Atom>, id1: nat, id2: nat): seq<Atom>
    requires id1 < |atoms| && id2 < |atoms|
  {
    var a := atoms[id1 := atoms[id1].(nbhd := Holed(atoms[id1].nbhd, id2))];
    a[id2 := a[id2].(nbhd := Holed(a[id2].nbhd, id1))]
  }

  /*********************************************************************************************
   * Lone pairs and edge count
   *********************************************************************************************/

  /** C's integer abs applied to a float: the argument is first truncated toward zero. */
  function AbsTrunc(x: real): int
  {
    var n := TruncToInt(x);
    if n < 0 then -n else n
  }

  predicate IsHalogen(symbol: string)
  {
    symbol == "Cl" || symbol == "Br" || symbol == "F" || symbol == "I"
  }

  /** The value MOL_nbLonePairs stores, from the average bond angle alpha, the steric number of
      the neighbour (-1 when unknown) and the cycle flag. */
  function LonePairs(a: Atom, alpha: real, stericNeighbor: int, cycle: int): int
  {
    if a.ligands == 1 then
      if a.symbol == "H" then 1
      else if IsHalogen(a.symbol) then 3
      else stericNeighbor - 1
    else if a.ligands == 4 then 0
    else if AbsTrunc(120.0 - alpha) < 4 then 3 - a.ligands
    else if alpha - 109.0 < 7.0 then
      if cycle == 1 && stericNeighbor == 3 then 3 - a.ligands
      else if cycle == 1 && stericNeighbor == -1 then -1
      else 4 - a.ligands
    else 0
  }

  /** C's division of an int by 2, which truncates toward zero. */
  function Half(n: int): int
  {
    if n >= 0 then n / 2 else -((-n) / 2)
  }

  /** The sum of the ligand counts of the first n atoms. */
  function LigandSum(atoms: seq<Atom>, n: nat): int
    requires n <= |atoms|
  {
    if n == 0 then 0 else LigandSum(atoms, n - 1) + atoms[n - 1].ligands
  }

  /** The value MOL_nbEdges returns. */
  function EdgeCount(atoms: seq<Atom>): int
  {
    Half(LigandSum(atoms, |atoms|))
  }

  /*********************************************************************************************
   * Hydrogen bonding groups (MOL_createBond)
   *********************************************************************************************/

  /** Atoms whose hydrogen bonding group MOL_createBond links. */
  predicate Polar(symbol: string)
  {
    symbol == "O" || symbol == "N" || symbol == "F"
  }

  /** x belongs to the group of atom i: i itself when it has a lone pair, and its hydrogen
      neighbours. */
  ghost predicate InGroup(atoms: seq<Atom>, i: nat, x: int)
    requires i < |atoms|
  {
    (x == i && atoms[i].lonePairs > 0) ||
    (x in Ids(atoms[i].nbhd) && 0 <= x < |atoms| && atoms[x].symbol == "H")
  }

  /** Every two members of the group of atom i are joined in the graph, both ways. */
  ghost predicate Clique(vs: seq<Vertex>, atoms: seq<Atom>, i: nat)
    requires i < |atoms|
  {
    (forall x :: InGroup(atoms, i, x) ==> HasVertex(vs, x)) &&
    (forall x, y :: InGroup(atoms, i, x) && InGroup(atoms, i, y) && x != y ==> Adjacent(vs, x, y))
  }

  /** x and y are two distinct members of the group of atom i. */
  ghost predicate GroupEdge(atoms: seq<Atom>, i: nat, x: int, y: int)
    requires i < |atoms|
  {
    InGroup(atoms, i, x) && InGroup(atoms, i, y) && x != y
  }

  /** ws differs from vs at most by members of the group of atom i as vertices and, when the
      unused slots of vs have empty lists, by edges joining two of them. */
  ghost predicate AddsGroup(vs: seq<Vertex>, ws: seq<Vertex>, atoms: seq<Atom>, i: nat)
    requires i < |atoms|
  {
    (forall x :: HasVertex(ws, x) ==> HasVertex(vs, x) || InGroup(atoms, i, x)) &&
    (FreeEmpty(vs) ==>
      FreeEmpty(ws) && forall x, y :: Adjacent(ws, x, y) ==> Adjacent(vs, x, y) || GroupEdge(atoms, i, x, y))
  }

  /** x is in the group of atom i as far as the neighbour loop has come: i itself when it has
      a lone pair, and its hydrogen neighbours among the first j slots. */
  ghost predicate GroupUpTo(atoms: seq<Atom>, i: nat, j: nat, x: int)
    requires i < |atoms| && j <= |atoms[i].nbhd|
  {
    (x == i && atoms[i].lonePairs > 0) ||
    (x in atoms[i].nbhd[..j] && 0 <= x < |atoms| && atoms[x].symbol == "H")
  }

  /** x belongs to the group of an O, N or F atom among the first n. */
  ghost predicate Member(atoms: seq<Atom>, n: nat, x: int)
    requires n <= |atoms|
  {
    exists k :: 0 <= k < n && Polar(atoms[k].symbol) && InGroup(atoms, k, x)
  }

  /** x and y are two distinct members of the group of an O, N or F atom among the first n. */
  ghost predicate Bond(atoms: seq<Atom>, n: nat, x: int, y: int)
    requires n <= |atoms|
  {
    exists k :: 0 <= k < n && Polar(atoms[k].symbol) && GroupEdge(atoms, k, x, y)
  }

  /** ws differs from vs at most by the members and the pairs of the groups of the O, N and F
      atoms among the first n (the pairs when the unused slots of vs have empty lists). */
  ghost predicate AddsBonds(vs: seq<Vertex>, ws: seq<Vertex>, atoms: seq<Atom>, n: nat)
    requires n <= |atoms|
  {
    (forall x :: HasVertex(ws, x) ==> HasVertex(vs, x) || Member(atoms, n, x)) &&
    (FreeEmpty(vs) ==>
      FreeEmpty(ws) && forall x, y :: Adjacent(ws, x, y) ==> Adjacent(vs, x, y) || Bond(atoms, n, x, y))
  }

  /*********************************************************************************************
   * Properties
   *********************************************************************************************/

  /** The truncation inside abs does not move the band: |120 - alpha| < 4 exactly. */
  lemma AbsTruncBand(x: real)
    ensures AbsTrunc(x) < 4 <==> -4.0 < x < 4.0
  {
  }

  /** The steric number (ligands plus lone pairs) MOL_nbLonePairs gives: 4 for a halogen or a
      saturated atom, 3 near 120 degrees or in a ring next to a trigonal atom, 4 near the
      tetrahedral angle otherwise, and no lone pair at all for wide angles. */
  lemma StericNumber(a: Atom, alpha: real, stericNeighbor: int, cycle: int)
    ensures var s := a.ligands + LonePairs(a, alpha, stericNeighbor, cycle);
      (a.ligands == 1 && a.symbol == "H" ==> s == 2) &&
      (a.ligands == 1 && IsHalogen(a.symbol) ==> s == 4) &&
      (a.ligands == 1 && a.symbol != "H" && !IsHalogen(a.symbol) ==> s == stericNeighbor) &&
      (a.ligands == 4 ==> s == 4) &&
      (a.ligands != 1 && a.ligands != 4 && -4.0 < 120.0 - alpha < 4.0 ==> s == 3) &&
      (a.ligands != 1 && a.ligands != 4 && alpha < 116.0 && cycle == 1 && stericNeighbor == 3 ==>
        s == 3) &&
      (a.ligands != 1 && a.ligands != 4 && alpha < 116.0 && !(cycle == 1 && stericNeighbor in {3, -1}) ==>
        s == 4) &&
      (a.ligands != 1 && a.ligands != 4 && alpha >= 124.0 ==> LonePairs(a, alpha, stericNeighbor, cycle) == 0)
  {
    AbsTruncBand(120.0 - alpha);
  }

  /** On a packed list with at most four ids, MOL_nbLigands counts exactly the neighbours. */
  lemma LigandCountOfPacked(s: seq<int>)
    requires Packed(s) && |s| >= 4 && |Ids(s)| <= 4
    ensures LigandCount(s) == |Ids(s)|
  {
    var t := s[..4];
    assert Packed(t);
    CountIdsOfPacked(t);
    CountIdsOfPacked(s);
    assert FirstFree(t) == FirstFree(s) by {
      LayoutFirstFree(t, FirstFree(s));
    }
  }

  /** MOL_removeNeighbor of a neighbour held in one of the first four slots lowers the count by
      one; an absent id changes nothing. */
  lemma HoledCount(s: seq<int>, id: int)
    requires |s| >= 4
    ensures |Holed(s, id)| == |s|
    ensures IndexOf(s, id) == -1 ==> Holed(s, id) == s
    ensures 0 <= IndexOf(s, id) < 4 ==> LigandCount(Holed(s, id)) == LigandCount(s) - 1
  {
    var p := IndexOf(s, id);
    if 0 <= p < 4 {
      CountIdsUpdate(s[..4], p);
      assert Holed(s, id)[..4] == s[..4][p := FREE];
    }
  }

  lemma {:induction false} CountIdsUpdate(s: seq<int>, p: nat)
    requires p < |s| && s[p] != FREE
    ensures CountIds(s[p := FREE]) == CountIds(s) - 1
  {
    if p > 0 {
      CountIdsUpdate(s[1..], p - 1);
      assert s[p := FREE][1..] == s[1..][p - 1 := FREE];
    } else {
      assert s[p := FREE][1..] == s[1..];
    }
  }

  /** A hole hides the neighbours stored after it: in [1, 2] with 1 removed, LST_getIndice no
      longer finds 2, and adding the edge again stores 2 twice and counts two ligands. */
  lemma HoleHidesNeighbour()
    ensures var h := Holed([1, 2, FREE, FREE], 1);
      h == [FREE, 2, FREE, FREE] && !Packed(h) && IndexOf(h, 2) == -1 && LigandCount(h) == 1 &&
      Added(h, 2) == [2, 2, FREE, FREE] && LigandCount(Added(h, 2)) == 2
  {
    var h: seq<int> := [FREE, 2, FREE, FREE];
    assert Holed([1, 2, FREE, FREE], 1) == h by {
      assert IndexOf([1, 2, FREE, FREE], 1) == 0;
    }
    assert h[0] == FREE && h[1] != FREE;
    assert FirstFree(h) == 0;
    var g: seq<int> := [2, 2, FREE, FREE];
    assert Added(h, 2) == g;
    assert h[..4] == h && g[..4] == g;
    CountFour(FREE, 2, FREE, FREE);
    CountFour(2, 2, FREE, FREE);
  }

  lemma CountFour(a: int, b: int, c: int, d: int)
    ensures CountIds([a, b, c, d]) ==
      (if a == FREE then 0 else 1) + (if b == FREE then 0 else 1) +
      (if c == FREE then 0 else 1) + (if d == FREE then 0 else 1)
  {
    assert [d][1..] == [];
    assert CountIds([d]) == if d == FREE then 0 else 1;
    assert [c, d][1..] == [d];
    assert CountIds([c, d]) == (if c == FREE then 0 else 1) + CountIds([d]);
    assert [b, c, d][1..] == [c, d];
    assert CountIds([b, c, d]) == (if b == FREE then 0 else 1) + CountIds([c, d]);
    assert [a, b, c, d][1..] == [b, c, d];
  }

  /** When each atom's ligand count is its number of neighbours, the sum of the ligand counts
      is the degree sum of the neighbour lists. */
  lemma {:induction false} LigandSumIsDegreeSum(atoms: seq<Atom>, n: nat)
    requires n <= |atoms|
    requires forall i :: 0 <= i < |atoms| ==> atoms[i].ligands == |Ids(atoms[i].nbhd)|
    ensures LigandSum(atoms, n) == DegreeSum(Neighbourhoods(Lists(atoms)), n)
  {
    if n > 0 {
      LigandSumIsDegreeSum(atoms, n - 1);
    }
  }

  /** MOL_nbEdges counts the bonds: for consistent lists whose ligand counts are up to date,
      half the sum of the ligand counts is the number of unordered bonded pairs. */
  lemma EdgeCountIsBonds(atoms: seq<Atom>)
    requires Consistent(Lists(atoms))
    requires forall i :: 0 <= i < |atoms| ==> atoms[i].ligands == |Ids(atoms[i].nbhd)|
    ensures EdgeCount(atoms) == PairCount(Neighbourhoods(Lists(atoms)), |atoms|)
  {
    LigandSumIsDegreeSum(atoms, |atoms|);
    Handshake(Neighbourhoods(Lists(atoms)));
  }

  /** MOL_addEdge of two distinct atoms is the edge insertion of Adjacency: it keeps the lists
      consistent, joins the two atoms both ways and changes nothing else. */
  lemma AddEdgeConsistent(atoms: seq<Atom>, id1: nat, id2: nat)
    requires Consistent(Lists(atoms)) && id1 < |atoms| && id2 < |atoms| && id1 != id2
    ensures var r := EdgeAdded(atoms, id1, id2);
      Lists(r) == Joined(Lists(atoms), id1, id2) && Consistent(Lists(r)) &&
      forall k, y :: Holds(Lists(r), k, y) <==>
        Holds(Lists(atoms), k, y) || (k == id1 && y == id2) || (k == id2 && y == id1)
  {
    assert Lists(EdgeAdded(atoms, id1, id2)) == Joined(Lists(atoms), id1, id2);
    JoinedConsistent(Lists(atoms), id1, id2);
  }

  /*********************************************************************************************
   * The molecule object
   *********************************************************************************************/

  class Molecule {
    var atoms: seq<Atom>
    var cycle: Option<seq<int>>
    const bond: Graph

    /** MOL_create: size atoms as MOL_createAtom leaves them, no cycle list, an empty graph. */
    constructor (size: nat)
      ensures atoms == seq(size, _ => NewAtom) && cycle == None
      ensures fresh(bond) && bond.vertices == []
    {
      var a: seq<Atom> := [];
      for i := 0 to size
        invariant a == seq(i, _ => NewAtom)
      {
        a := a + [NewAtom];
      }
      atoms := a;
      cycle := None;
      bond := new Graph();
    }

    /** MOL_addNeighbor: an absent id goes into the first free slot, growing the list when none
        is free; this is what LST_addElement does. */
    method AddNeighbor(i: nat, id: int)
      requires i < |atoms|
      modifies this
      ensures atoms == old(atoms)[i := old(atoms)[i].(nbhd := Added(old(atoms)[i].nbhd, id))]
      ensures cycle == old(cycle)
    {
      var l := new IdList();
      l.elts := atoms[i].nbhd;
      var k := l.GetIndice(id);
      if k == -1 {
        var f := l.GetIndiceFree();
        l.elts := l.elts[f := id];
      }
      atoms := atoms[i := atoms[i].(nbhd := l.elts)];
    }

    /** MOL_removeNeighbor: the slot of id, when found, is freed in place. */
    method RemoveNeighbor(i: nat, id: int)
      requires i < |atoms|
      modifies this
      ensures atoms == old(atoms)[i := old(atoms)[i].(nbhd := Holed(old(atoms)[i].nbhd, id))]
      ensures cycle == old(cycle)
    {
      var l := new IdList();
      l.elts := atoms[i].nbhd;
      var k := l.GetIndice(id);
      if k != -1 {
        atoms := atoms[i := atoms[i].(nbhd := atoms[i].nbhd[k := FREE])];
      }
    }

    /** MOL_nbLigands: count the used slots among the first four. The list must have at least
        four slots, which it has as soon as one neighbour was added. */
    method NbLigands(i: nat)
      requires i < |atoms| && |atoms[i].nbhd| >= 4
      modifies this
      ensures atoms == old(atoms)[i := old(atoms)[i].(ligands := LigandCount(old(atoms)[i].nbhd))]
      ensures cycle == old(cycle)
    {
      var s := atoms[i].nbhd;
      var cpt := 0;
      for k := 0 to 4
        invariant cpt == CountIds(s[..k]) && atoms == old(atoms) && cycle == old(cycle)
      {
        CountIdsSnoc(s[..k], s[k]);
        assert s[..k + 1] == s[..k] + [s[k]];
        if s[k] != FREE {
          cpt := cpt + 1;
        }
      }
      atoms := atoms[i := atoms[i].(ligands := cpt)];
    }

    /** MOL_nbLonePairs. */
    method NbLonePairs(i: nat, alpha: real, stericNeighbor: int, cycleFlag: int)
      requires i < |atoms|
      modifies this
      ensures atoms == old(atoms)[i := old(atoms)[i].(lonePairs :=
        LonePairs(old(atoms)[i], alpha, stericNeighbor, cycleFlag))]
      ensures cycle == old(cycle)
    {
      atoms := atoms[i := atoms[i].(lonePairs := LonePairs(atoms[i], alpha, stericNeighbor, cycleFlag))];
    }

    /** MOL_nbEdges: half the sum of the ligand counts. */
    method NbEdges() returns (n: int)
      ensures n == EdgeCount(atoms)
    {
      var cpt := 0;
      for i := 0 to |atoms|
        invariant cpt == LigandSum(atoms, i)
      {
        cpt := cpt + atoms[i].ligands;
      }
      n := if cpt >= 0 then cpt / 2 else -((-cpt) / 2);
    }

    /** MOL_addEdge. */
    method AddEdge(id1: nat, id2: nat)
      requires id1 < |atoms| && id2 < |atoms|
      modifies this
      ensures atoms == EdgeAdded(old(atoms), id1, id2) && cycle == old(cycle)
    {
      if id1 != id2 {
        AddNeighbor(id1, id2);
        AddNeighbor(id2, id1);
      }
    }

    /** MOL_removeEdge. */
    method RemoveEdge(id1: nat, id2: nat)
      requires id1 < |atoms| && id2 < |atoms|
      modifies this
      ensures atoms == EdgeRemoved(old(atoms), id1, id2) && cycle == old(cycle)
    {
      RemoveNeighbor(id1, id2);
      RemoveNeighbor(id2, id1);
    }

    /** MOL_createBond: for every O, N or F atom, join in the bond graph every two members of
        its group (itself when it has a lone pair, and its hydrogen neighbours). The graph gains
        exactly those members and, when its unused slots have empty lists, exactly those
        pairs. */
    method CreateBond()
      requires NeighboursInRange(atoms) && ListsPacked(bond.vertices)
      modifies bond
      ensures Grows(old(bond.vertices), bond.vertices)
      ensures forall i :: 0 <= i < |atoms| && Polar(atoms[i].symbol) ==> Clique(bond.vertices, atoms, i)
      ensures forall x :: HasVertex(bond.vertices, x) <==>
        HasVertex(old(bond.vertices), x) || Member(atoms, |atoms|, x)
      ensures FreeEmpty(old(bond.vertices)) ==> forall x, y :: Adjacent(bond.vertices, x, y) <==>
        Adjacent(old(bond.vertices), x, y) || Bond(atoms, |atoms|, x, y)
    {
      ghost var start := bond.vertices;
      for i := 0 to |atoms|
        invariant Grows(start, bond.vertices) && AddsBonds(start, bond.vertices, atoms, i)
        invariant forall k :: 0 <= k < i && Polar(atoms[k].symbol) ==> Clique(bond.vertices, atoms, k)
      {
        ghost var before := bond.vertices;
        if Polar(atoms[i].symbol) {
          BondGroup(i);
          GrowsTrans(start, before, bond.vertices);
          forall k | 0 <= k < i && Polar(atoms[k].symbol)
            ensures Clique(bond.vertices, atoms, k)
          {
            CliqueGrows(before, bond.vertices, atoms, k);
          }
        }
        BondsStep(start, before, bond.vertices, atoms, i);
      }
      BondsPresent(bond.vertices, atoms);
    }

    /** One atom of MOL_createBond: collect the group in a list and the graph, then add an edge
        for every pair of positions j < k of the list. */
    method BondGroup(i: nat)
      requires i < |atoms| && NeighboursInRange(atoms) && ListsPacked(bond.vertices)
      modifies bond
      ensures Grows(old(bond.vertices), bond.vertices) && Clique(bond.vertices, atoms, i)
      ensures AddsGroup(old(bond.vertices), bond.vertices, atoms, i)
    {
      ghost var start := bond.vertices;
      var lh := Collect(i);
      ghost var mid := bond.vertices;
      var ids := lh.elts;
      ghost var n := FirstFree(ids);
      var j := 0;
      while j < |ids| && ids[j] != FREE
        invariant j <= n && Grows(mid, bond.vertices) && Known(bond.vertices, Ids(ids))
        invariant PairsFrom(bond.vertices, ids, j) && AddsGroup(start, bond.vertices, atoms, i)
      {
        ghost var before := bond.vertices;
        LinkFrom(ids, j, i);
        PairsStep(before, bond.vertices, ids, j);
        GrowsTrans(mid, before, bond.vertices);
        KnownGrows(before, bond.vertices, Ids(ids));
        AddsGroupTrans(start, before, bond.vertices, atoms, i);
        j := j + 1;
      }
      GrowsTrans(start, mid, bond.vertices);
      CliqueOfPairs(bond.vertices, atoms, i, ids);
    }

    /** The first part of one atom of MOL_createBond: the group's list, each member also added
        as a vertex. */
    method Collect(i: nat) returns (lh: IdList)
      requires i < |atoms| && NeighboursInRange(atoms) && ListsPacked(bond.vertices)
      modifies bond
      ensures Grows(old(bond.vertices), bond.vertices) && Packed(lh.elts) && NoDup(Ids(lh.elts))
      ensures forall x :: x in Ids(lh.elts) <==> InGroup(atoms, i, x)
      ensures Known(bond.vertices, Ids(lh.elts))
      ensures AddsGroup(old(bond.vertices), bond.vertices, atoms, i)
    {
      var a := atoms[i];
      lh := new IdList();
      ghost var start := bond.vertices;
      if a.lonePairs > 0 {
        JoinBound(start, start, atoms, i, i);
        Join(lh, i);
      }
      var j := 0;
      while j < |a.nbhd| && a.nbhd[j] != FREE
        invariant j <= FirstFree(a.nbhd) && Packed(lh.elts) && NoDup(Ids(lh.elts))
        invariant Grows(start, bond.vertices) && AddsGroup(start, bond.vertices, atoms, i)
        invariant Known(bond.vertices, Ids(lh.elts))
        invariant forall x :: x in Ids(lh.elts) <==> GroupUpTo(atoms, i, j, x)
      {
        CollectStep(lh, i, j, start);
        j := j + 1;
      }
      assert a.nbhd[..j] == Ids(a.nbhd);
    }

    /** One turn of the neighbour loop of MOL_createBond: a hydrogen neighbour joins the
        group. */
    method CollectStep(lh: IdList, i: nat, j: nat, ghost start: seq<Vertex>)
      requires i < |atoms| && NeighboursInRange(atoms) && j < FirstFree(atoms[i].nbhd)
      requires Packed(lh.elts) && NoDup(Ids(lh.elts)) && Known(bond.vertices, Ids(lh.elts))
      requires Grows(start, bond.vertices) && AddsGroup(start, bond.vertices, atoms, i)
      requires forall x :: x in Ids(lh.elts) <==> GroupUpTo(atoms, i, j, x)
      modifies lh, bond
      ensures Packed(lh.elts) && NoDup(Ids(lh.elts)) && Known(bond.vertices, Ids(lh.elts))
      ensures Grows(start, bond.vertices) && AddsGroup(start, bond.vertices, atoms, i)
      ensures forall x :: x in Ids(lh.elts) <==> GroupUpTo(atoms, i, j + 1, x)
    {
      var x := atoms[i].nbhd[j];
      assert x in Ids(atoms[i].nbhd);
      assert atoms[i].nbhd[..j + 1] == atoms[i].nbhd[..j] + [x];
      if atoms[x].symbol == "H" {
        ghost var mid := bond.vertices;
        JoinBound(start, mid, atoms, i, x);
        Join(lh, x);
        GrowsTrans(start, mid, bond.vertices);
      }
    }

    /** Add one member to the group's list and the graph. */
    method Join(lh: IdList, x: int)
      requires x != FREE && Packed(lh.elts) && NoDup(Ids(lh.elts)) && ListsPacked(bond.vertices)
      requires Known(bond.vertices, Ids(lh.elts))
      modifies lh, bond
      ensures Packed(lh.elts) && NoDup(Ids(lh.elts)) && Grows(old(bond.vertices), bond.vertices)
      ensures bond.vertices == AddedVertex(old(bond.vertices), x)
      ensures forall y :: y in Ids(lh.elts) <==> y in Ids(old(lh.elts)) || y == x
      ensures Known(bond.vertices, Ids(lh.elts))
    {
      AddedIds(lh.elts, x);
      AddedNoDup(lh.elts, x);
      lh.AddElement(x);
      AddVertexGrows(bond.vertices, x);
      ghost var before := bond.vertices;
      var _ := bond.AddVertex(x);
      KnownGrows(before, bond.vertices, Ids(old(lh.elts)));
    }

    /** The inner loop of the pair loop of MOL_createBond: link position j to every later
        position of the list, whose distinct ids all belong to the group of atom i. */
    method LinkFrom(ids: seq<int>, j: nat, ghost i: nat)
      requires j < FirstFree(ids) && ListsPacked(bond.vertices) && Known(bond.vertices, Ids(ids))
      requires i < |atoms| && NoDup(Ids(ids)) && forall x :: x in Ids(ids) ==> InGroup(atoms, i, x)
      modifies bond
      ensures Grows(old(bond.vertices), bond.vertices) && Linked(bond.vertices, ids, j, FirstFree(ids))
      ensures AddsGroup(old(bond.vertices), bond.vertices, atoms, i)
    {
      ghost var start := bond.vertices;
      ghost var n := FirstFree(ids);
      var k := j + 1;
      while k < |ids| && ids[k] != FREE
        invariant j < k <= n && Grows(start, bond.vertices) && Linked(bond.vertices, ids, j, k)
        invariant AddsGroup(start, bond.vertices, atoms, i)
      {
        ghost var before := bond.vertices;
        KnownGrows(start, before, Ids(ids));
        LinkOne(before, ids, j, k);
        PairInGroup(ids, j, k, atoms, i);
        LinkBound(start, before, atoms, i, ids[j], ids[k]);
        bond.AddEdge(ids[j], ids[k]);
        GrowsTrans(start, before, bond.vertices);
        k := k + 1;
      }
    }
  }

  /** Two positions j < k before the first free slot of a duplicate-free list of group members
      hold two distinct members. */
  lemma PairInGroup(ids: seq<int>, j: nat, k: nat, atoms: seq<Atom>, i: nat)
    requires j < k < FirstFree(ids) && i < |atoms| && NoDup(Ids(ids))
    requires forall x :: x in Ids(ids) ==> InGroup(atoms, i, x)
    ensures GroupEdge(atoms, i, ids[j], ids[k])
  {
    assert Ids(ids)[j] == ids[j] && Ids(ids)[k] == ids[k];
  }

  /** Every id of xs is a vertex. */
  ghost predicate Known(vs: seq<Vertex>, xs: seq<int>)
  {
    forall x :: x in xs ==> HasVertex(vs, x)
  }

  /** Position j of ids is joined both ways to every position j + 1 .. k - 1. */
  ghost predicate Linked(vs: seq<Vertex>, ids: seq<int>, j: nat, k: nat)
    requires k <= |ids|
  {
    forall q :: j < q < k ==> Adjacent(vs, ids[j], ids[q]) && Adjacent(vs, ids[q], ids[j])
  }

  /** Every position below j is linked to all later positions before the first free slot. */
  ghost predicate PairsFrom(vs: seq<Vertex>, ids: seq<int>, j: nat)
  {
    forall p :: 0 <= p < j && p < FirstFree(ids) ==> Linked(vs, ids, p, FirstFree(ids))
  }

  lemma KnownGrows(vs: seq<Vertex>, ws: seq<Vertex>, xs: seq<int>)
    requires Known(vs, xs) && Grows(vs, ws)
    ensures Known(ws, xs)
  {
  }

  lemma LinkedGrows(vs: seq<Vertex>, ws: seq<Vertex>, ids: seq<int>, j: nat, k: nat)
    requires k <= |ids| && Linked(vs, ids, j, k) && Grows(vs, ws)
    ensures Linked(ws, ids, j, k)
  {
  }

  /** One step of the inner pair loop: GPH_addEdge of positions j and k extends the links. */
  lemma LinkOne(vs: seq<Vertex>, ids: seq<int>, j: nat, k: nat)
    requires j < k < FirstFree(ids) && ListsPacked(vs) && Known(vs, Ids(ids)) && Linked(vs, ids, j, k)
    ensures var r := AddedEdge(vs, ids[j], ids[k]);
      Grows(vs, r) && Linked(r, ids, j, k + 1)
  {
    var r := AddedEdge(vs, ids[j], ids[k]);
    assert ids[j] in Ids(ids) && ids[k] in Ids(ids);
    AddEdgeGrows(vs, ids[j], ids[k]);
    LinkedGrows(vs, r, ids, j, k);
    LinkedExtend(r, ids, j, k);
  }

  lemma LinkedExtend(vs: seq<Vertex>, ids: seq<int>, j: nat, k: nat)
    requires j < k < |ids| && Linked(vs, ids, j, k)
    requires Adjacent(vs, ids[j], ids[k]) && Adjacent(vs, ids[k], ids[j])
    ensures Linked(vs, ids, j, k + 1)
  {
  }

  /** One step of the outer pair loop. */
  lemma PairsStep(vs: seq<Vertex>, ws: seq<Vertex>, ids: seq<int>, j: nat)
    requires j < FirstFree(ids) && PairsFrom(vs, ids, j) && Grows(vs, ws)
    requires Linked(ws, ids, j, FirstFree(ids))
    ensures PairsFrom(ws, ids, j + 1)
  {
    forall p | 0 <= p < j
      ensures Linked(ws, ids, p, FirstFree(ids))
    {
      LinkedGrows(vs, ws, ids, p, FirstFree(ids));
    }
  }

  /** When all pairs of the list are linked, the group the list holds is a clique. */
  lemma CliqueOfPairs(vs: seq<Vertex>, atoms: seq<Atom>, i: nat, ids: seq<int>)
    requires i < |atoms| && Known(vs, Ids(ids)) && PairsFrom(vs, ids, FirstFree(ids))
    requires forall x :: x in Ids(ids) <==> InGroup(atoms, i, x)
    ensures Clique(vs, atoms, i)
  {
    var n := FirstFree(ids);
    forall x, y | InGroup(atoms, i, x) && InGroup(atoms, i, y) && x != y
      ensures Adjacent(vs, x, y)
    {
      assert x in Ids(ids) && y in Ids(ids);
      var p :| 0 <= p < n && ids[p] == x;
      var q :| 0 <= q < n && ids[q] == y;
      assert Linked(vs, ids, p, n) && Linked(vs, ids, q, n);
    }
  }

  /** Growth of the graph keeps every clique. */
  lemma CliqueGrows(vs: seq<Vertex>, ws: seq<Vertex>, atoms: seq<Atom>, i: nat)
    requires i < |atoms| && Clique(vs, atoms, i) && Grows(vs, ws)
    ensures Clique(ws, atoms, i)
  {
  }

  /** GPH_addVertex of a member of the group of atom i keeps ws within the group's additions. */
  lemma JoinBound(vs: seq<Vertex>, ws: seq<Vertex>, atoms: seq<Atom>, i: nat, x: int)
    requires i < |atoms| && AddsGroup(vs, ws, atoms, i) && x != FREE && InGroup(atoms, i, x)
    ensures AddsGroup(vs, AddedVertex(ws, x), atoms, i)
  {
    AddVertexBound(ws, x);
  }

  /** GPH_addEdge of two distinct members of the group of atom i keeps ws within the group's
      additions. */
  lemma LinkBound(vs: seq<Vertex>, ws: seq<Vertex>, atoms: seq<Atom>, i: nat, a: int, b: int)
    requires i < |atoms| && AddsGroup(vs, ws, atoms, i) && ListsPacked(ws) && GroupEdge(atoms, i, a, b)
    ensures AddsGroup(vs, AddedEdge(ws, a, b), atoms, i)
  {
    AddEdgeBound(ws, a, b);
  }

  lemma AddsGroupTrans(us: seq<Vertex>, vs: seq<Vertex>, ws: seq<Vertex>, atoms: seq<Atom>, i: nat)
    requires i < |atoms| && AddsGroup(us, vs, atoms, i) && AddsGroup(vs, ws, atoms, i)
    ensures AddsGroup(us, ws, atoms, i)
  {
  }

  /** One atom of MOL_createBond: the additions of the first i groups and those of group i make
      the additions of the first i + 1 groups; an atom that is not O, N or F adds nothing. */
  lemma BondsStep(start: seq<Vertex>, vs: seq<Vertex>, ws: seq<Vertex>, atoms: seq<Atom>, i: nat)
    requires i < |atoms| && AddsBonds(start, vs, atoms, i)
    requires Polar(atoms[i].symbol) ==> AddsGroup(vs, ws, atoms, i)
    requires !Polar(atoms[i].symbol) ==> ws == vs
    ensures AddsBonds(start, ws, atoms, i + 1)
  {
    forall x | HasVertex(ws, x) && !HasVertex(start, x)
      ensures Member(atoms, i + 1, x)
    {
      if HasVertex(vs, x) {
        var k :| 0 <= k < i && Polar(atoms[k].symbol) && InGroup(atoms, k, x);
      } else {
        assert InGroup(atoms, i, x);
      }
    }
    if FreeEmpty(start) {
      forall x, y | Adjacent(ws, x, y) && !Adjacent(start, x, y)
        ensures Bond(atoms, i + 1, x, y)
      {
        if Adjacent(vs, x, y) {
          var k :| 0 <= k < i && Polar(atoms[k].symbol) && GroupEdge(atoms, k, x, y);
        } else {
          assert GroupEdge(atoms, i, x, y);
        }
      }
    }
  }

  /** With every group a clique, every member is a vertex and every pair an edge. */
  lemma BondsPresent(vs: seq<Vertex>, atoms: seq<Atom>)
    requires forall i :: 0 <= i < |atoms| && Polar(atoms[i].symbol) ==> Clique(vs, atoms, i)
    ensures forall x :: Member(atoms, |atoms|, x) ==> HasVertex(vs, x)
    ensures forall x, y :: Bond(atoms, |atoms|, x, y) ==> Adjacent(vs, x, y)
  {
    forall x | Member(atoms, |atoms|, x)
      ensures HasVertex(vs, x)
    {
      var k :| 0 <= k < |atoms| && Polar(atoms[k].symbol) && InGroup(atoms, k, x);
      assert Clique(vs, atoms, k);
    }
    forall x, y | Bond(atoms, |atoms|, x, y)
      ensures Adjacent(vs, x, y)
    {
      var k :| 0 <= k < |atoms| && Polar(atoms[k].symbol) && GroupEdge(atoms, k, x, y);
      assert Clique(vs, atoms, k);
    }
  }

  lemma {:induction false} CountIdsSnoc(s: seq<int>, x: int)
    ensures CountIds(s + [x]) == CountIds(s) + (if x == FREE then 0 else 1)
    decreases |s|
  {
    if s == [] {
      assert [x][1..] == [];
    } else {
      assert (s + [x])[1..] == s[1..] + [x];
      CountIdsSnoc(s[1..], x);
    }
  }
}
