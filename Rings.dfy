/**
 * Aromatic rings on the envelope (generateCycle, src/generation.c). The ring candidates are the
 * used atoms on the shell's cycle list. Each candidate x collects its neighbours that are cut
 * from it (not candidates, or farther than MAXDIS_CYCLE); when at least two neighbours are not
 * cut, the edges to the cut ones are removed and x is flagged CYCLE_F. Distances are compared
 * squared, as everywhere in this model.
 */
module Rings {
  import opened Constants
  import opened IdLists
  import opened Points
  import opened Degrees
  import opened Adjacency
  import opened Shells
  import opened Graphs
  import opened Options
  import Generation

  /*********************************************************************************************
   * Ring candidates
   *********************************************************************************************/

  /** The ring candidates among the first n slots, in slot order: used atoms on the cycle
      list. */
  function Candidates(atoms: seq<ShellAtom>, cycle: seq<int>, n: nat): (r: seq<int>)
    requires n <= |atoms|
    ensures forall k :: 0 <= k < |r| ==> 0 <= r[k] < n
  {
    if n == 0 then []
    else
      var last := if atoms[n - 1].flag != NOT_DEF_F && n - 1 in Ids(cycle) then [n - 1] else [];
      Candidates(atoms, cycle, n - 1) + last
  }

  /** The candidates are exactly the used atoms on the cycle list, in increasing order. */
  lemma {:induction false} CandidatesAre(atoms: seq<ShellAtom>, cycle: seq<int>, n: nat)
    requires n <= |atoms|
    ensures forall x :: x in Candidates(atoms, cycle, n) <==>
      0 <= x < n && atoms[x].flag != NOT_DEF_F && x in Ids(cycle)
    ensures forall k, l :: 0 <= k < l < |Candidates(atoms, cycle, n)| ==>
      Candidates(atoms, cycle, n)[k] < Candidates(atoms, cycle, n)[l]
  {
    if n > 0 {
      CandidatesAre(atoms, cycle, n - 1);
    }
  }

  /** The first loop of generateCycle: every used atom that cycle(s, i) reports is added to a
      new list. */
  method CycleAtoms(s: Shell) returns (ring: IdList)
    ensures fresh(ring) && Packed(ring.elts)
    ensures Ids(ring.elts) == Candidates(s.atoms, s.cycle, |s.atoms|)
  {
    var atoms := s.atoms;
    ring := new IdList();
    var cl := new IdList();
    cl.elts := s.cycle;
    ghost var cycle := cl.elts;
    for i := 0 to |atoms|
      invariant fresh(ring) && ring != cl && cl.elts == cycle
      invariant Packed(ring.elts) && Ids(ring.elts) == Candidates(atoms, cycle, i)
    {
      AddIfCandidate(ring, cl, atoms, i);
    }
  }

  /** One turn of that loop: slot i joins the ring list when it is a candidate. */
  method AddIfCandidate(ring: IdList, cl: IdList, atoms: seq<ShellAtom>, i: nat)
    requires i < |atoms| && ring != cl
    requires Packed(ring.elts) && Ids(ring.elts) == Candidates(atoms, cl.elts, i)
    modifies ring
    ensures Packed(ring.elts) && Ids(ring.elts) == Candidates(atoms, cl.elts, i + 1)
  {
    ghost var next := Candidates(atoms, cl.elts, i + 1);
    assert next == Candidates(atoms, cl.elts, i) +
      (if atoms[i].flag != NOT_DEF_F && i in Ids(cl.elts) then [i] else []);
    if atoms[i].flag != NOT_DEF_F {
      var c := cl.Check(i);
      if c == 1 {
        AddToPacked(ring, i);
      }
    }
  }

  /*********************************************************************************************
   * The neighbours cut from a candidate
   *********************************************************************************************/

  /** Neighbour y is cut from the candidate x: y is not a candidate, or lies farther than
      MAXDIS_CYCLE from x. */
  predicate Cut(atoms: seq<ShellAtom>, ring: seq<int>, x: nat, y: int)
    requires x < |atoms| && 0 <= y < |atoms|
  {
    y !in ring || DistSup(atoms[x].coords, atoms[y].coords, MAXDIS_CYCLE)
  }

  /** The ids of nb are slots. */
  ghost predicate InSlots(atoms: seq<ShellAtom>, nb: seq<int>)
  {
    forall j :: 0 <= j < |nb| ==> 0 <= nb[j] < |atoms|
  }

  /** The cut neighbours among the first k ids of nb, in list order, each once since
      LST_addElement skips an id already listed. */
  function Offs(atoms: seq<ShellAtom>, ring: seq<int>, x: nat, nb: seq<int>, k: nat): seq<int>
    requires x < |atoms| && k <= |nb| && InSlots(atoms, nb)
  {
    if k == 0 then []
    else
      var r := Offs(atoms, ring, x, nb, k - 1);
      if Cut(atoms, ring, x, nb[k - 1]) && nb[k - 1] !in r then r + [nb[k - 1]] else r
  }

  /** Offs holds every cut id of nb[..k] once and nothing else. */
  lemma {:induction false} OffsAre(atoms: seq<ShellAtom>, ring: seq<int>, x: nat, nb: seq<int>, k: nat)
    requires x < |atoms| && k <= |nb| && InSlots(atoms, nb)
    ensures NoDup(Offs(atoms, ring, x, nb, k))
    ensures forall y :: y in Offs(atoms, ring, x, nb, k) <==>
      y in nb[..k] && 0 <= y < |atoms| && Cut(atoms, ring, x, y)
  {
    if k > 0 {
      OffsAre(atoms, ring, x, nb, k - 1);
      assert nb[..k] == nb[..k - 1] + [nb[k - 1]];
    }
  }

  /** The neighbour loop of generateCycle on the candidate x: every listed neighbour that the
      ring list does not hold, or that lies farther than MAXDIS_CYCLE, is added to a new list. */
  method OffRing(s: Shell, ring: IdList, x: nat) returns (off: IdList)
    requires x < |s.atoms| && InSlots(s.atoms, Ids(s.atoms[x].nbhd))
    ensures fresh(off) && Packed(off.elts)
    ensures Ids(off.elts) ==
      Offs(s.atoms, Ids(ring.elts), x, Ids(s.atoms[x].nbhd), |Ids(s.atoms[x].nbhd)|)
  {
    off := new IdList();
    var nb := s.atoms[x].nbhd;
    var j := 0;
    while j < |nb| && nb[j] != FREE
      invariant j <= FirstFree(nb)
      invariant fresh(off) && Packed(off.elts)
      invariant Ids(off.elts) == Offs(s.atoms, Ids(ring.elts), x, Ids(nb), j)
    {
      assert Ids(nb)[j] == nb[j];
      var c := ring.Check(nb[j]);
      if c == 0 || DistSup(s.atoms[x].coords, s.atoms[nb[j]].coords, MAXDIS_CYCLE) {
        AddToPacked(off, nb[j]);
      }
      j := j + 1;
    }
  }

  /*********************************************************************************************
   * Removing the cut edges
   *********************************************************************************************/

  /** Only the neighbour lists and the flags may differ between atoms and atoms'. */
  ghost predicate Kept(atoms: seq<ShellAtom>, atoms': seq<ShellAtom>)
  {
    |atoms'| == |atoms| &&
    forall k :: 0 <= k < |atoms| ==> atoms'[k].coords == atoms[k].coords && atoms'[k].parent == atoms[k].parent
  }

  /** The edge k-y is one of the edges from x to an id of off. */
  predicate Severed(x: int, off: seq<int>, k: int, y: int)
  {
    (k == x && y in off) || (y == x && k in off)
  }

  /** One removal in the loop of CutEdges. */
  lemma SeveredStep(a0: seq<ShellAtom>, a1: seq<ShellAtom>, x: nat, off: seq<int>, j: nat)
    requires Consistent(Lists(a0)) && Consistent(Lists(a1)) && x < |a1| && j < |off|
    requires forall k, y :: Holds(Lists(a1), k, y) <==> Holds(Lists(a0), k, y) && !Severed(x, off[..j], k, y)
    ensures var r := EdgeRemoved(a1, x, off[j]);
      forall k, y :: Holds(Lists(r), k, y) <==> Holds(Lists(a0), k, y) && !Severed(x, off[..j + 1], k, y)
  {
    RemoveEdgeFacts(a1, x, off[j]);
    assert off[..j + 1] == off[..j] + [off[j]];
    var r := EdgeRemoved(a1, x, off[j]);
    forall k, y
      ensures Holds(Lists(r), k, y) <==> Holds(Lists(a0), k, y) && !Severed(x, off[..j + 1], k, y)
    {
      if Holds(Lists(a1), k, y) {
        assert RowOk(Neighbourhoods(Lists(a1)), k);
      }
    }
  }

  /** The removal loop of generateCycle: SHL_removeEdge(x, y) for every y listed in off. */
  method CutEdges(s: Shell, x: nat, off: IdList)
    requires Consistent(Lists(s.atoms)) && x < |s.atoms|
    modifies s
    ensures Consistent(Lists(s.atoms)) && s.cycle == old(s.cycle) && Kept(old(s.atoms), s.atoms)
    ensures forall k :: 0 <= k < |s.atoms| ==> s.atoms[k].flag == old(s.atoms)[k].flag
    ensures forall k, y :: Holds(Lists(s.atoms), k, y) <==>
      Holds(Lists(old(s.atoms)), k, y) && !Severed(x, Ids(off.elts), k, y)
  {
    ghost var a0 := s.atoms;
    ghost var cycle := s.cycle;
    var j := 0;
    while j < |off.elts| && off.elts[j] != FREE
      invariant j <= FirstFree(off.elts)
      invariant Consistent(Lists(s.atoms)) && s.cycle == cycle && Kept(a0, s.atoms)
      invariant forall k :: 0 <= k < |s.atoms| ==> s.atoms[k].flag == a0[k].flag
      invariant forall k, y :: Holds(Lists(s.atoms), k, y) <==>
        Holds(Lists(a0), k, y) && !Severed(x, Ids(off.elts)[..j], k, y)
    {
      assert Ids(off.elts)[j] == off.elts[j];
      SeveredStep(a0, s.atoms, x, Ids(off.elts), j);
      RemoveEdgeFacts(s.atoms, x, off.elts[j]);
      s.RemoveEdge(x, off.elts[j]);
      j := j + 1;
    }
    assert Ids(off.elts)[..j] == Ids(off.elts);
  }

  /*********************************************************************************************
   * One candidate
   *********************************************************************************************/

  /** The candidate x keeps at least two neighbours, all of them candidates within
      MAXDIS_CYCLE. */
  ghost predicate RingKept(atoms: seq<ShellAtom>, ring: seq<int>, x: nat)
    requires x < |atoms|
  {
    |Ids(atoms[x].nbhd)| >= 2 &&
    forall y :: y in Ids(atoms[x].nbhd) ==> 0 <= y < |atoms| && !Cut(atoms, ring, x, y)
  }

  /** A duplicate-free sequence is as long as the set of its elements. */
  lemma {:induction false} NoDupCard(xs: seq<int>)
    requires NoDup(xs)
    ensures |set y | y in xs| == |xs|
  {
    if xs != [] {
      var t := xs[..|xs| - 1];
      assert NoDup(t);
      NoDupCard(t);
      assert (set y | y in xs) == (set y | y in t) + {xs[|xs| - 1]};
    }
  }

  /** Dropping the ids of cut, all listed in nb, from the duplicate-free nb leaves a list of
      |nb| - |cut| ids. */
  lemma DropCount(nb: seq<int>, cut: seq<int>, kept: seq<int>)
    requires NoDup(nb) && NoDup(cut) && NoDup(kept)
    requires forall y :: y in cut ==> y in nb
    requires forall y :: y in kept <==> y in nb && y !in cut
    ensures |kept| == |nb| - |cut|
  {
    NoDupCard(nb);
    NoDupCard(cut);
    NoDupCard(kept);
    var N, C, K := set y | y in nb, set y | y in cut, set y | y in kept;
    assert K == N - C;
    assert N == K + C && K !! C;
  }

  /** The neighbour list of the candidate x: a packed, duplicate-free list of slots. */
  lemma ListFacts(atoms: seq<ShellAtom>, x: nat)
    requires Consistent(Lists(atoms)) && x < |atoms|
    ensures Packed(atoms[x].nbhd) && NoDup(Ids(atoms[x].nbhd))
    ensures UsedLength(atoms[x].nbhd) == |Ids(atoms[x].nbhd)|
    ensures InSlots(atoms, Ids(atoms[x].nbhd)) && x !in Ids(atoms[x].nbhd)
    ensures forall y :: y in Ids(atoms[x].nbhd) <==> Holds(Lists(atoms), x, y)
  {
    var adj := Neighbourhoods(Lists(atoms));
    assert RowOk(adj, x) && adj[x] == Ids(atoms[x].nbhd);
    forall j | 0 <= j < |adj[x]|
      ensures 0 <= adj[x][j] < |atoms|
    {
      assert adj[x][j] in adj[x];
    }
    CountIdsOfPacked(atoms[x].nbhd);
  }

  /** The body of generateCycle's loop for the candidate x: the cut neighbours are collected;
      when at least two neighbours are not cut, the edges to the cut ones are removed and x is
      flagged CYCLE_F, and then x keeps exactly its neighbours that are not cut. */
  method RingStep(s: Shell, ring: IdList, x: nat) returns (enough: bool)
    requires Consistent(Lists(s.atoms)) && x < |s.atoms|
    modifies s
    ensures Consistent(Lists(s.atoms)) && s.cycle == old(s.cycle) && Kept(old(s.atoms), s.atoms)
    ensures forall k :: 0 <= k < |s.atoms| && k != x ==> s.atoms[k].flag == old(s.atoms)[k].flag
    ensures var nb := Ids(old(s.atoms)[x].nbhd);
      InSlots(old(s.atoms), nb) &&
      var cut := Offs(old(s.atoms), Ids(ring.elts), x, nb, |nb|);
      enough == (|nb| - |cut| >= 2) &&
      s.atoms[x].flag == (if enough then CYCLE_F else old(s.atoms)[x].flag) &&
      (forall k, y :: Holds(Lists(s.atoms), k, y) <==>
        Holds(Lists(old(s.atoms)), k, y) && !(enough && Severed(x, cut, k, y))) &&
      (enough ==> RingKept(s.atoms, Ids(ring.elts), x))
  {
    ghost var a0 := s.atoms;
    ghost var nb := Ids(a0[x].nbhd);
    ListFacts(a0, x);
    var off := OffRing(s, ring, x);
    var nl := new IdList();
    nl.elts := s.atoms[x].nbhd;
    var n: int := nl.NbElements();
    var m: int := off.NbElements();
    CountIdsOfPacked(off.elts);
    enough := n - m >= 2;
    if enough {
      CutEdges(s, x, off);
      ghost var a1 := s.atoms;
      s.atoms := s.atoms[x := s.atoms[x].(flag := CYCLE_F)];
      EnoughKept(a0, a1, Ids(ring.elts), x, Ids(off.elts));
    }
  }

  /** After the cut edges of x are removed, x keeps its neighbours that are not cut, at least
      two of them when the count taken before says so; the new flag does not touch the lists. */
  lemma EnoughKept(a0: seq<ShellAtom>, a1: seq<ShellAtom>, ring: seq<int>, x: nat, cut: seq<int>)
    requires Consistent(Lists(a0)) && Consistent(Lists(a1)) && Kept(a0, a1) && x < |a0|
    requires InSlots(a0, Ids(a0[x].nbhd))
    requires cut == Offs(a0, ring, x, Ids(a0[x].nbhd), |Ids(a0[x].nbhd)|)
    requires |Ids(a0[x].nbhd)| - |cut| >= 2
    requires forall k, y :: Holds(Lists(a1), k, y) <==> Holds(Lists(a0), k, y) && !Severed(x, cut, k, y)
    ensures var a2 := a1[x := a1[x].(flag := CYCLE_F)];
      Lists(a2) == Lists(a1) && RingKept(a2, ring, x)
  {
    var a2 := a1[x := a1[x].(flag := CYCLE_F)];
    assert Lists(a2) == Lists(a1);
    var nb := Ids(a0[x].nbhd);
    OffsAre(a0, ring, x, nb, |nb|);
    assert nb[..|nb|] == nb;
    ListFacts(a0, x);
    ListFacts(a1, x);
    DropCount(nb, cut, Ids(a1[x].nbhd));
  }

  /*********************************************************************************************
   * The third neighbour of a ring atom left with two
   *********************************************************************************************/

  /** Slot k holds a used atom closer than MINDIS_CYCLE to the point p. */
  predicate Close(atoms: seq<ShellAtom>, p: Point, k: int)
  {
    0 <= k < |atoms| && Used(atoms[k]) && DistInf(p, atoms[k].coords, MINDIS_CYCLE)
  }

  /** Slot k, met from slot j on, is merged into the new atom id: a used atom other than id,
      closer than MINDIS_CYCLE to p, that is not an envelope atom. */
  predicate Eaten(atoms: seq<ShellAtom>, p: Point, id: int, j: int, k: int)
  {
    j <= k && k != id && Close(atoms, p, k) && atoms[k].flag != SHELL_F
  }

  /** Slot y is a neighbour of an atom eaten from slot j on. */
  ghost predicate Fed(atoms: seq<ShellAtom>, p: Point, id: int, j: int, y: int)
  {
    exists e :: Eaten(atoms, p, id, j, e) && Holds(Lists(atoms), e, y)
  }

  /** SHL_mergeAtom(eater, eaten) on consistent lists and a consistent graph, where it is
      defined; it does nothing when eater == eaten, as its guard says. */
  function Merge(st: ShellState, eater: nat, eaten: nat): (r: ShellState)
    requires Consistent(Lists(st.atoms)) && GraphOk(st.vertices)
    requires eater < |st.atoms| && eaten < |st.atoms|
    ensures AtomsMerged(st, eater, eaten) == Some(r)
    ensures Consistent(Lists(r.atoms)) && GraphOk(r.vertices) && |r.atoms| == |st.atoms|
  {
    MergeDefined(st, eater, eaten);
    AtomsMerged(st, eater, eaten).value
  }

  /** SHL_mergeAtom is defined on consistent lists and a consistent graph, and keeps both
      consistent. */
  lemma MergeDefined(st: ShellState, eater: nat, eaten: nat)
    requires Consistent(Lists(st.atoms)) && GraphOk(st.vertices)
    requires eater < |st.atoms| && eaten < |st.atoms|
    ensures AtomsMerged(st, eater, eaten).Some?
    ensures var r := AtomsMerged(st, eater, eaten).value;
      Consistent(Lists(r.atoms)) && GraphOk(r.vertices) && |r.atoms| == |st.atoms|
  {
    if eater != eaten {
      var m := Absorbing(st, eater, eaten);
      assert Consistent(Lists(m.atoms)) && m.vertices == st.vertices by {
        AbsorbingFacts(st, eater, eaten);
      }
      RemoveAnyVertexOk(st.vertices, eaten);
      var g := RemovedVertex(st.vertices, eaten);
      assert AtomRemoved(m, eaten).Some? && Consistent(Lists(AtomRemoved(m, eaten).value.atoms)) &&
        AtomRemoved(m, eaten).value.vertices == g.value by {
        RemoveAtomFacts(m, eaten);
      }
    }
  }

  /** DeleteFirst keeps every element other than the one it deletes, and adds none. */
  lemma {:induction false} DeleteFirstOthers(xs: seq<int>, x: int, y: int)
    requires y != x
    ensures y in DeleteFirst(xs, x) <==> y in xs
  {
    if xs != [] && xs[0] != x {
      DeleteFirstOthers(xs[1..], x, y);
    }
  }

  /** The cycle list after SHL_mergeAtom: it stays packed, the eater is on it when either atom
      was, and no other atom but the eaten one changes membership. */
  lemma MergeCycle(st: ShellState, eater: nat, eaten: nat)
    requires Consistent(Lists(st.atoms)) && GraphOk(st.vertices) && Packed(st.cycle)
    requires eater < |st.atoms| && eaten < |st.atoms| && eater != eaten
    ensures var c := Merge(st, eater, eaten).cycle;
      Packed(c) &&
      (eater in Ids(c) <==> eater in Ids(st.cycle) || eaten in Ids(st.cycle)) &&
      forall k :: k != eater && k != eaten ==> (k in Ids(c) <==> k in Ids(st.cycle))
  {
    var c1 := if eaten in Ids(st.cycle) then Added(st.cycle, eater) else st.cycle;
    assert Absorbing(st, eater, eaten).cycle == c1;
    var c := Merge(st, eater, eaten).cycle;
    assert c == CycleWithout(c1, eaten);
    if eaten in Ids(st.cycle) {
      AddedIds(st.cycle, eater);
    }
    assert Packed(c1);
    if eaten in Ids(c1) {
      RemovedIds(c1, eaten);
      forall k | k != eaten
        ensures k in Ids(c) <==> k in Ids(c1)
      {
        DeleteFirstOthers(Ids(c1), eaten, k);
      }
    }
  }

  /** The slots an atom merge leaves alone, and the eater's coordinates. */
  lemma MergeKeeps(st: ShellState, eater: nat, eaten: nat)
    requires Consistent(Lists(st.atoms)) && GraphOk(st.vertices)
    requires eater < |st.atoms| && eaten < |st.atoms| && eater != eaten
    ensures var r, L := Merge(st, eater, eaten), Lists(st.atoms);
      r.atoms[eaten] == InitAtom &&
      r.atoms[eater].parent == st.atoms[eaten].parent && r.atoms[eater].coords == st.atoms[eater].coords &&
      r.atoms[eater].flag == MaxFlag(st.atoms[eater].flag, st.atoms[eaten].flag) &&
      (forall k :: 0 <= k < |st.atoms| && k != eater && k != eaten ==>
        r.atoms[k].(nbhd := st.atoms[k].nbhd) == st.atoms[k]) &&
      (forall k, y :: Holds(Lists(r.atoms), k, y) <==> (k != eaten && y != eaten &&
        (Holds(L, k, y) || (k == eater && Holds(L, eaten, y) && y != eater) ||
         (y == eater && Holds(L, eaten, k) && k != eater))))
  {
    RemoveAnyVertexOk(st.vertices, eaten);
    MergeAtomFacts(st, eater, eaten);
  }

  /** One turn of the merge loop of the third-point branch, at slot j: a used atom closer than
      MINDIS_CYCLE to p puts id on the ring list when the shell's cycle list holds it, and is
      merged into id unless it is an envelope atom (SHL_mergeAtom ignores id itself). The
      source also takes the atom off the list of cut neighbours, which nothing reads again. */
  function Turn(st: ShellState, ring: seq<int>, id: nat, p: Point, j: nat): (r: (ShellState, seq<int>))
    requires Consistent(Lists(st.atoms)) && GraphOk(st.vertices) && id < |st.atoms| && j < |st.atoms|
    ensures Consistent(Lists(r.0.atoms)) && GraphOk(r.0.vertices) && |r.0.atoms| == |st.atoms|
    ensures r.0 == if Eaten(st.atoms, p, id, j, j) then Merge(st, id, j) else st
  {
    var close := Close(st.atoms, p, j);
    var ring' := if close && j in Ids(st.cycle) then Added(ring, id) else ring;
    var st' := if close && st.atoms[j].flag != SHELL_F then Merge(st, id, j) else st;
    (st', ring')
  }

  /** The merge loop of the third-point branch from slot j on. */
  function Gathered(st: ShellState, ring: seq<int>, id: nat, p: Point, j: nat): (r: (ShellState, seq<int>))
    requires Consistent(Lists(st.atoms)) && GraphOk(st.vertices) && id < |st.atoms|
    ensures Consistent(Lists(r.0.atoms)) && GraphOk(r.0.vertices) && |r.0.atoms| == |st.atoms|
    decreases |st.atoms| - j
  {
    if j >= |st.atoms| then (st, ring)
    else
      var t := Turn(st, ring, id, p, j);
      Gathered(t.0, t.1, id, p, j + 1)
  }

  /** e is the last slot eaten from slot j on. */
  ghost predicate LastEaten(atoms: seq<ShellAtom>, p: Point, id: int, j: int, e: int)
  {
    Eaten(atoms, p, id, j, e) && forall k :: Eaten(atoms, p, id, j, k) ==> k <= e
  }

  /** The flag f of the new atom after the merges from slot j on: the largest of its own and
      the eaten atoms' flags. */
  ghost predicate EaterFlag(atoms: seq<ShellAtom>, p: Point, id: nat, j: int, f: int)
    requires id < |atoms|
  {
    f >= atoms[id].flag && (forall e :: Eaten(atoms, p, id, j, e) ==> f >= atoms[e].flag) &&
    (f == atoms[id].flag || exists e :: Eaten(atoms, p, id, j, e) && f == atoms[e].flag)
  }

  /** The parent q of the new atom after the merges from slot j on: the one of the last atom
      eaten, its own when none is. */
  ghost predicate EaterParent(atoms: seq<ShellAtom>, p: Point, id: nat, j: int, q: int)
    requires id < |atoms|
  {
    (exists e :: LastEaten(atoms, p, id, j, e) && q == atoms[e].parent) ||
    ((forall e :: !Eaten(atoms, p, id, j, e)) && q == atoms[id].parent)
  }

  /** One turn of the merge loop: the atoms met later are eaten exactly when they were before
      the turn. */
  lemma EatenLater(st: ShellState, id: nat, p: Point, j: nat)
    requires Consistent(Lists(st.atoms)) && GraphOk(st.vertices) && id < |st.atoms| && j < |st.atoms|
    ensures var A := st.atoms;
      var A' := if Eaten(A, p, id, j, j) then Merge(st, id, j).atoms else A;
      |A'| == |A| &&
      (forall k :: 0 <= k < |A| && k != id && k != j ==> A'[k].(nbhd := A[k].nbhd) == A[k]) &&
      (forall k :: Eaten(A', p, id, j + 1, k) <==> Eaten(A, p, id, j, k) && k != j)
  {
    var A := st.atoms;
    if Eaten(A, p, id, j, j) {
      MergeKeeps(st, id, j);
      var A' := Merge(st, id, j).atoms;
      forall k
        ensures Eaten(A', p, id, j + 1, k) <==> Eaten(A, p, id, j, k) && k != j
      {
        if 0 <= k < |A| && k != id && k != j {
          assert A'[k].(nbhd := A[k].nbhd) == A[k];
        }
      }
    }
  }

  /** What one turn of the merge loop, at slot j, does to the atoms: it leaves A as it is
      unless slot j is eaten; then slot j is reset and the new atom id takes the larger flag
      and slot j's parent, every other atom keeping its fields but its list. */
  ghost predicate MergeTurn(A: seq<ShellAtom>, A': seq<ShellAtom>, p: Point, id: nat, j: nat)
    requires id < |A| && j < |A|
  {
    |A'| == |A| &&
    (forall k :: 0 <= k < |A| && k != id && k != j ==> A'[k].(nbhd := A[k].nbhd) == A[k]) &&
    (forall k :: Eaten(A', p, id, j + 1, k) <==> Eaten(A, p, id, j, k) && k != j) &&
    A'[id].coords == A[id].coords &&
    if Eaten(A, p, id, j, j) then
      A'[j] == InitAtom && A'[id].flag == MaxFlag(A[id].flag, A[j].flag) && A'[id].parent == A[j].parent
    else A' == A
  }

  /** The atoms r left by the merge loop from slot j on, A before it: every eaten atom is
      reset, the other atoms keep their fields but their lists, and the new atom id keeps its
      coordinates and gets the largest flag and the parent of the last atom eaten. */
  ghost predicate AtomsAfter(A: seq<ShellAtom>, r: seq<ShellAtom>, p: Point, id: nat, j: nat)
    requires id < |A|
  {
    |r| == |A| &&
    (forall k :: Eaten(A, p, id, j, k) ==> r[k].(nbhd := []) == InitAtom) &&
    (forall k :: 0 <= k < |A| && k != id && !Eaten(A, p, id, j, k) ==> r[k].(nbhd := A[k].nbhd) == A[k]) &&
    r[id].coords == A[id].coords && EaterFlag(A, p, id, j, r[id].flag) && EaterParent(A, p, id, j, r[id].parent)
  }

  /** The turn at slot j as a MergeTurn. */
  lemma MergeTurnHolds(st: ShellState, id: nat, p: Point, j: nat)
    requires Consistent(Lists(st.atoms)) && GraphOk(st.vertices) && id < |st.atoms| && j < |st.atoms|
    ensures var A := st.atoms;
      MergeTurn(A, if Eaten(A, p, id, j, j) then Merge(st, id, j).atoms else A, p, id, j)
  {
    EatenLater(st, id, p, j);
    if Eaten(st.atoms, p, id, j, j) {
      MergeKeeps(st, id, j);
    }
  }

  /** AtomsAfter over one more turn. */
  lemma AtomsStep(A: seq<ShellAtom>, A': seq<ShellAtom>, r: seq<ShellAtom>, p: Point, id: nat, j: nat)
    requires id < |A| && j < |A| && MergeTurn(A, A', p, id, j) && AtomsAfter(A', r, p, id, j + 1)
    ensures AtomsAfter(A, r, p, id, j)
  {
    var eat := Eaten(A, p, id, j, j);
    forall k | Eaten(A, p, id, j, k)
      ensures r[k].(nbhd := []) == InitAtom
    {
      if k == j {
        assert !Eaten(A', p, id, j + 1, j);
      }
    }
    forall k | 0 <= k < |A| && k != id && !Eaten(A, p, id, j, k)
      ensures r[k].(nbhd := A[k].nbhd) == A[k]
    {
      assert !Eaten(A', p, id, j + 1, k);
    }
    EaterFlagStep(A, A', p, id, j, r[id].flag, eat);
    EaterParentStep(A, A', p, id, j, r[id].parent, eat);
  }

  /** Past the last slot nothing is eaten, and the atoms stay as they are. */
  lemma NoneEaten(A: seq<ShellAtom>, p: Point, id: nat, j: nat)
    requires id < |A| <= j
    ensures AtomsAfter(A, A, p, id, j)
  {
    assert forall k :: !Eaten(A, p, id, j, k);
  }

  /** AtomsAfter back over the turn at slot j. */
  lemma TurnAtoms(st: ShellState, ring: seq<int>, id: nat, p: Point, j: nat)
    requires Consistent(Lists(st.atoms)) && GraphOk(st.vertices) && id < |st.atoms| && j < |st.atoms|
    requires var t := Turn(st, ring, id, p, j);
      AtomsAfter(t.0.atoms, Gathered(t.0, t.1, id, p, j + 1).0.atoms, p, id, j + 1)
    ensures AtomsAfter(st.atoms, Gathered(st, ring, id, p, j).0.atoms, p, id, j)
  {
    var t := Turn(st, ring, id, p, j);
    var g := Gathered(t.0, t.1, id, p, j + 1).0.atoms;
    assert Gathered(st, ring, id, p, j).0.atoms == g;
    MergeTurnHolds(st, id, p, j);
    AtomsStep(st.atoms, t.0.atoms, g, p, id, j);
  }

  /** The merge loop from slot j on, as AtomsAfter says. */
  lemma {:induction false} GatheredAtoms(st: ShellState, ring: seq<int>, id: nat, p: Point, j: nat)
    requires Consistent(Lists(st.atoms)) && GraphOk(st.vertices) && id < |st.atoms|
    ensures AtomsAfter(st.atoms, Gathered(st, ring, id, p, j).0.atoms, p, id, j)
    decreases |st.atoms| - j
  {
    var A := st.atoms;
    if j >= |A| {
      NoneEaten(A, p, id, j);
    } else {
      var t := Turn(st, ring, id, p, j);
      GatheredAtoms(t.0, t.1, id, p, j + 1);
      TurnAtoms(st, ring, id, p, j);
    }
  }

  /** What one turn of the merge loop, at slot j, does to the edges: none when slot j is not
      eaten (eat false); otherwise slot j loses its edges and passes them on to the new atom
      id. */
  ghost predicate EdgeTurn(A: seq<ShellAtom>, A': seq<ShellAtom>, id: nat, j: nat, eat: bool)
  {
    forall k, y :: Holds(Lists(A'), k, y) <==>
      if eat then k != j && y != j &&
        (Holds(Lists(A), k, y) || (k == id && Holds(Lists(A), j, y) && y != id) ||
         (y == id && Holds(Lists(A), j, k) && k != id))
      else Holds(Lists(A), k, y)
  }

  /** The edges r holds after the merge loop from slot j on, A before it: the eaten atoms have
      none; the new atom id keeps its own and gains the other neighbours of every atom it eats;
      every other edge stays. */
  ghost predicate EdgesAfter(A: seq<ShellAtom>, r: seq<ShellAtom>, p: Point, id: nat, j: nat)
  {
    forall k, y :: Holds(Lists(r), k, y) <==>
      !Eaten(A, p, id, j, k) && !Eaten(A, p, id, j, y) &&
      (Holds(Lists(A), k, y) || (k == id && y != id && Fed(A, p, id, j, y)) ||
       (y == id && k != id && Fed(A, p, id, j, k)))
  }

  /** The turn at slot j as an EdgeTurn. */
  lemma EdgeTurnHolds(st: ShellState, id: nat, p: Point, j: nat)
    requires Consistent(Lists(st.atoms)) && GraphOk(st.vertices) && id < |st.atoms| && j < |st.atoms|
    ensures var A, eat := st.atoms, Eaten(st.atoms, p, id, j, j);
      EdgeTurn(A, if eat then Merge(st, id, j).atoms else A, id, j, eat)
  {
    if Eaten(st.atoms, p, id, j, j) {
      MergeKeeps(st, id, j);
    }
  }

  /** A neighbour y of an atom eaten from slot j on, other than j and id, is a neighbour of j
      itself when j is eaten, or of an atom eaten after the turn. */
  lemma FedStep(A: seq<ShellAtom>, A': seq<ShellAtom>, p: Point, id: nat, j: nat, y: int)
    requires id < |A| && j < |A| && MergeTurn(A, A', p, id, j)
    requires EdgeTurn(A, A', id, j, Eaten(A, p, id, j, j)) && y != j && y != id
    ensures Fed(A, p, id, j, y) <==>
      (Eaten(A, p, id, j, j) && Holds(Lists(A), j, y)) || Fed(A', p, id, j + 1, y)
  {
    if Fed(A, p, id, j, y) {
      var e :| Eaten(A, p, id, j, e) && Holds(Lists(A), e, y);
      if e != j {
        assert Eaten(A', p, id, j + 1, e) && Holds(Lists(A'), e, y);
      }
    }
    if Fed(A', p, id, j + 1, y) {
      var e :| Eaten(A', p, id, j + 1, e) && Holds(Lists(A'), e, y);
      assert Eaten(A, p, id, j, e) && Holds(Lists(A), e, y);
    }
  }

  /** EdgesAfter over one more turn. */
  lemma EdgesStep(A: seq<ShellAtom>, A': seq<ShellAtom>, r: seq<ShellAtom>, p: Point, id: nat, j: nat)
    requires id < |A| && j < |A| && MergeTurn(A, A', p, id, j)
    requires EdgeTurn(A, A', id, j, Eaten(A, p, id, j, j)) && EdgesAfter(A', r, p, id, j + 1)
    ensures EdgesAfter(A, r, p, id, j)
  {
    forall k, y
      ensures Holds(Lists(r), k, y) <==>
        !Eaten(A, p, id, j, k) && !Eaten(A, p, id, j, y) &&
        (Holds(Lists(A), k, y) || (k == id && y != id && Fed(A, p, id, j, y)) ||
         (y == id && k != id && Fed(A, p, id, j, k)))
    {
      if k != j && y != j {
        if y != id {
          FedStep(A, A', p, id, j, y);
        }
        if k != id {
          FedStep(A, A', p, id, j, k);
        }
      } else if k == j {
        if Fed(A', p, id, j + 1, j) {
          var e :| Eaten(A', p, id, j + 1, e) && Holds(Lists(A'), e, j);
        }
      } else {
        if Fed(A', p, id, j + 1, j) {
          var e :| Eaten(A', p, id, j + 1, e) && Holds(Lists(A'), e, j);
        }
      }
    }
  }

  /** EdgesAfter back over the turn at slot j. */
  lemma TurnEdges(st: ShellState, ring: seq<int>, id: nat, p: Point, j: nat)
    requires Consistent(Lists(st.atoms)) && GraphOk(st.vertices) && id < |st.atoms| && j < |st.atoms|
    requires var t := Turn(st, ring, id, p, j);
      EdgesAfter(t.0.atoms, Gathered(t.0, t.1, id, p, j + 1).0.atoms, p, id, j + 1)
    ensures EdgesAfter(st.atoms, Gathered(st, ring, id, p, j).0.atoms, p, id, j)
  {
    var t := Turn(st, ring, id, p, j);
    var A, A', g := st.atoms, t.0.atoms, Gathered(t.0, t.1, id, p, j + 1).0.atoms;
    assert Gathered(st, ring, id, p, j).0.atoms == g;
    assert MergeTurn(A, A', p, id, j) by {
      MergeTurnHolds(st, id, p, j);
    }
    assert EdgeTurn(A, A', id, j, Eaten(A, p, id, j, j)) by {
      EdgeTurnHolds(st, id, p, j);
    }
    EdgesStep(A, A', g, p, id, j);
  }

  /** Past the last slot nothing is eaten, and the edges stay as they are. */
  lemma NoneFed(A: seq<ShellAtom>, p: Point, id: nat, j: nat)
    requires |A| <= j
    ensures EdgesAfter(A, A, p, id, j)
  {
    assert forall k :: !Eaten(A, p, id, j, k);
  }

  /** The merge loop from slot j on, as EdgesAfter says. */
  lemma {:induction false} GatheredEdges(st: ShellState, ring: seq<int>, id: nat, p: Point, j: nat)
    requires Consistent(Lists(st.atoms)) && GraphOk(st.vertices) && id < |st.atoms|
    ensures EdgesAfter(st.atoms, Gathered(st, ring, id, p, j).0.atoms, p, id, j)
    decreases |st.atoms| - j
  {
    var A := st.atoms;
    if j >= |A| {
      NoneFed(A, p, id, j);
    } else {
      var t := Turn(st, ring, id, p, j);
      GatheredEdges(t.0, t.1, id, p, j + 1);
      TurnEdges(st, ring, id, p, j);
    }
  }

  /** Some used atom from slot j on, closer than MINDIS_CYCLE to p, is on the cycle list. */
  ghost predicate Sighted(atoms: seq<ShellAtom>, cycle: seq<int>, p: Point, j: int)
  {
    exists k :: j <= k && Close(atoms, p, k) && k in Ids(cycle)
  }

  /** What one turn of the merge loop, at slot j, does to the cycle list: it stays packed, and
      only the eaten slot j and the new atom id, which inherits j's place, change membership. */
  ghost predicate CycleTurn(c: seq<int>, c': seq<int>, id: nat, j: nat, eat: bool)
  {
    Packed(c') && (id in Ids(c') <==> id in Ids(c) || (eat && j in Ids(c))) &&
    forall k :: k != id && k != j ==> (k in Ids(c') <==> k in Ids(c))
  }

  /** The turn at slot j as a CycleTurn. */
  lemma CycleTurnHolds(st: ShellState, ring: seq<int>, id: nat, p: Point, j: nat)
    requires Consistent(Lists(st.atoms)) && GraphOk(st.vertices) && Packed(st.cycle)
    requires id < |st.atoms| && j < |st.atoms|
    ensures CycleTurn(st.cycle, Turn(st, ring, id, p, j).0.cycle, id, j, Eaten(st.atoms, p, id, j, j))
  {
    if Eaten(st.atoms, p, id, j, j) {
      MergeCycle(st, id, j);
    }
  }

  /** Adding an id twice adds it once. */
  lemma AddedTwice(s: seq<int>, id: nat)
    requires Packed(s)
    ensures Added(Added(s, id), id) == Added(s, id)
  {
    AddedIds(s, id);
    IndexOfFinds(Added(s, id), id);
  }

  /** The new atom stays used at p, and whether a close atom on the cycle list lies ahead is
      decided by slot j and the atoms after the turn. */
  lemma SightedStep(A: seq<ShellAtom>, A': seq<ShellAtom>, c: seq<int>, c': seq<int>, p: Point, id: nat, j: nat)
    requires id < |A| && j < |A| && MergeTurn(A, A', p, id, j)
    requires CycleTurn(c, c', id, j, Eaten(A, p, id, j, j))
    requires Used(A[id]) && A[id].coords == p
    ensures Used(A'[id]) && A'[id].coords == p
    ensures Sighted(A, c, p, j) <==> (Close(A, p, j) && j in Ids(c)) || Sighted(A', c', p, j + 1)
  {
    assert Close(A, p, id) && Close(A', p, id);
    if Sighted(A, c, p, j) {
      var k :| j <= k && Close(A, p, k) && k in Ids(c);
      if k != j {
        assert Close(A', p, k) && k in Ids(c');
      }
    }
    if Sighted(A', c', p, j + 1) {
      var k :| j + 1 <= k && Close(A', p, k) && k in Ids(c');
      if k != id {
        assert Close(A, p, k) && k in Ids(c);
      } else if !(id in Ids(c)) {
        assert j in Ids(c) && Close(A, p, j);
      }
    }
  }

  /** The ring list after the merge loop from slot j on: it gains the new atom id exactly when
      a used atom from slot j on, closer than MINDIS_CYCLE to p, is on the cycle list, which
      stays packed. */
  lemma {:induction false} GatheredRing(st: ShellState, ring: seq<int>, id: nat, p: Point, j: nat)
    requires Consistent(Lists(st.atoms)) && GraphOk(st.vertices) && id < |st.atoms|
    requires Packed(st.cycle) && Packed(ring) && Used(st.atoms[id]) && st.atoms[id].coords == p
    ensures var g := Gathered(st, ring, id, p, j);
      Packed(g.0.cycle) && g.1 == if Sighted(st.atoms, st.cycle, p, j) then Added(ring, id) else ring
    decreases |st.atoms| - j
  {
    var A := st.atoms;
    if j < |A| {
      var t := Turn(st, ring, id, p, j);
      var hit := Close(A, p, j) && j in Ids(st.cycle);
      assert t.1 == if hit then Added(ring, id) else ring;
      assert Packed(t.0.cycle) && Used(t.0.atoms[id]) && t.0.atoms[id].coords == p &&
        (Sighted(A, st.cycle, p, j) <==> hit || Sighted(t.0.atoms, t.0.cycle, p, j + 1)) by {
        MergeTurnHolds(st, id, p, j);
        CycleTurnHolds(st, ring, id, p, j);
        SightedStep(A, t.0.atoms, st.cycle, t.0.cycle, p, id, j);
      }
      assert Packed(t.1) by {
        AddedIds(ring, id);
      }
      GatheredRing(t.0, t.1, id, p, j + 1);
      AddedTwice(ring, id);
    }
  }

  /** The flag of the new atom over one more turn of the merge loop. */
  lemma EaterFlagStep(A: seq<ShellAtom>, A': seq<ShellAtom>, p: Point, id: nat, j: nat, f: int, eat: bool)
    requires id < |A| && j < |A| && eat == Eaten(A, p, id, j, j) && MergeTurn(A, A', p, id, j)
    requires EaterFlag(A', p, id, j + 1, f)
    ensures EaterFlag(A, p, id, j, f)
  {
    forall e | Eaten(A, p, id, j, e)
      ensures f >= A[e].flag
    {
      if e != j {
        assert Eaten(A', p, id, j + 1, e);
      }
    }
    if f != A'[id].flag {
      var e :| Eaten(A', p, id, j + 1, e) && f == A'[e].flag;
      assert Eaten(A, p, id, j, e);
    } else if f != A[id].flag {
      assert Eaten(A, p, id, j, j);
    }
  }

  /** The parent of the new atom over one more turn of the merge loop. */
  lemma EaterParentStep(A: seq<ShellAtom>, A': seq<ShellAtom>, p: Point, id: nat, j: nat, q: int, eat: bool)
    requires id < |A| && j < |A| && eat == Eaten(A, p, id, j, j) && MergeTurn(A, A', p, id, j)
    requires EaterParent(A', p, id, j + 1, q)
    ensures EaterParent(A, p, id, j, q)
  {
    if e :| LastEaten(A', p, id, j + 1, e) && q == A'[e].parent {
      assert LastEaten(A, p, id, j, e);
    } else if eat {
      assert LastEaten(A, p, id, j, j);
    } else {
      forall e
        ensures !Eaten(A, p, id, j, e)
      {
        assert !Eaten(A', p, id, j + 1, e);
      }
    }
  }

  /** A1 is A after SHL_addAtom(p, -1) put the new atom in slot id: the lists keep their
      edges, and the atoms the merge loop will eat are the same as in A. */
  ghost predicate AddedSlot(A: seq<ShellAtom>, A1: seq<ShellAtom>, p: Point, id: nat)
  {
    |A| <= |A1| && id < |A1| &&
    A1[id] == A1[id].(flag := SHELL_F, coords := p, parent := -1) &&
    (forall k :: 0 <= k < |A| && k != id ==> A1[k] == A[k]) &&
    (forall k :: |A| <= k < |A1| && k != id ==> A1[k] == InitAtom) &&
    (forall k, y :: Holds(Lists(A1), k, y) <==> Holds(Lists(A), k, y)) &&
    (forall k :: Eaten(A1, p, id, 0, k) <==> Eaten(A, p, id, 0, k))
  }

  /** SHL_addAtom(p, -1) before the merge loop takes the first unused slot and keeps the lists
      consistent. */
  lemma SlotAdded(A: seq<ShellAtom>, p: Point)
    requires Consistent(Lists(A))
    ensures Consistent(Lists(AtomAdded(A, p, -1))) &&
      AddedSlot(A, AtomAdded(A, p, -1), p, FirstUnusedAtom(A))
  {
    var A1, id := AtomAdded(A, p, -1), FirstUnusedAtom(A);
    assert Consistent(Lists(A1)) && forall k, y :: Holds(Lists(A1), k, y) <==> Holds(Lists(A), k, y) by {
      Generation.AddedLists(A, p, -1);
      Generation.GrownListsFacts(A);
    }
    AddAtomFacts(A, p, -1);
    forall k
      ensures Eaten(A1, p, id, 0, k) <==> Eaten(A, p, id, 0, k)
    {
      if 0 <= k < |A| && k != id {
        assert A1[k] == A[k];
      }
    }
  }

  /** The third-point branch of generateCycle for the ring atom x, p being the point
      addThirdPoint gives: SHL_addAtom(p, -1), the merge loop, the new atom raised to
      LINKABLE_F when its flag is not above it, and the edge from x to it. */
  function ThirdPlaced(st: ShellState, ring: seq<int>, x: nat, p: Point): (r: (ShellState, seq<int>))
    requires Consistent(Lists(st.atoms)) && GraphOk(st.vertices)
    ensures Consistent(Lists(r.0.atoms)) && GraphOk(r.0.vertices)
  {
    SlotAdded(st.atoms, p);
    var id := FirstUnusedAtom(st.atoms);
    var g := Gathered(st.(atoms := AtomAdded(st.atoms, p, -1)), ring, id, p, 0);
    var a2 := Raised(g.0.atoms, id);
    AddEdgeFacts(a2, x, id);
    (g.0.(atoms := EdgeAdded(a2, x, id)), g.1)
  }

  /** The new atom raised to LINKABLE_F when its flag is not above it. */
  function Raised(atoms: seq<ShellAtom>, id: nat): (r: seq<ShellAtom>)
    requires id < |atoms|
    ensures |r| == |atoms| && Lists(r) == Lists(atoms) && r[id].flag >= LINKABLE_F
  {
    var e := atoms[id];
    var r := atoms[id := e.(flag := if e.flag <= LINKABLE_F then LINKABLE_F else e.flag)];
    assert Lists(r) == Lists(atoms);
    r
  }

  /** The flag f of the new atom: the largest of LINKABLE_F and the eaten atoms' flags. */
  ghost predicate ThirdFlag(A: seq<ShellAtom>, p: Point, id: nat, f: int)
  {
    f >= LINKABLE_F && (forall e :: Eaten(A, p, id, 0, e) ==> f >= A[e].flag) &&
    (f == LINKABLE_F || exists e :: Eaten(A, p, id, 0, e) && f == A[e].flag)
  }

  /** The parent q of the new atom: the one of the last atom eaten, -1 when none is. */
  ghost predicate ThirdParent(A: seq<ShellAtom>, p: Point, id: nat, q: int)
  {
    (exists e :: LastEaten(A, p, id, 0, e) && q == A[e].parent) ||
    ((forall e :: !Eaten(A, p, id, 0, e)) && q == -1)
  }

  /** The atoms r after the third-point branch, A before it: the new atom sits in slot id at p,
      with the larger of LINKABLE_F and the eaten atoms' flags and the parent of the last atom
      eaten; every atom eaten is reset; every other atom keeps its fields but its list, and the
      slots made by growing the array are blank. */
  ghost predicate ThirdAtoms(A: seq<ShellAtom>, r: seq<ShellAtom>, p: Point, id: nat)
  {
    |A| <= |r| && id < |r| &&
    r[id].coords == p && ThirdFlag(A, p, id, r[id].flag) && ThirdParent(A, p, id, r[id].parent) &&
    (forall k :: Eaten(A, p, id, 0, k) ==> r[k].(nbhd := []) == InitAtom) &&
    (forall k :: 0 <= k < |A| && k != id && !Eaten(A, p, id, 0, k) ==> r[k].(nbhd := A[k].nbhd) == A[k]) &&
    (forall k :: |A| <= k < |r| && k != id ==> r[k].(nbhd := []) == InitAtom)
  }

  /** ThirdAtoms from the merge loop's AtomsAfter and the raise of the flag. */
  lemma ThirdAtomsOf(A: seq<ShellAtom>, A1: seq<ShellAtom>, g: seq<ShellAtom>, r: seq<ShellAtom>, p: Point, id: nat)
    requires AddedSlot(A, A1, p, id) && AtomsAfter(A1, g, p, id, 0) && |r| == |g|
    requires forall k :: 0 <= k < |r| && k != id ==> r[k].(nbhd := g[k].nbhd) == g[k]
    requires r[id].coords == g[id].coords && r[id].parent == g[id].parent
    requires r[id].flag == if g[id].flag <= LINKABLE_F then LINKABLE_F else g[id].flag
    ensures ThirdAtoms(A, r, p, id)
  {
    var f := g[id].flag;
    assert ThirdFlag(A, p, id, r[id].flag) by {
      assert EaterFlag(A1, p, id, 0, f);
      if exists k :: Eaten(A1, p, id, 0, k) && f == A1[k].flag {
        var k :| Eaten(A1, p, id, 0, k) && f == A1[k].flag;
        assert Eaten(A, p, id, 0, k);
      }
      forall k | Eaten(A, p, id, 0, k)
        ensures r[id].flag >= A[k].flag
      {
        assert Eaten(A1, p, id, 0, k);
      }
    }
    assert ThirdParent(A, p, id, r[id].parent) by {
      assert EaterParent(A1, p, id, 0, g[id].parent);
      if exists k :: LastEaten(A1, p, id, 0, k) && g[id].parent == A1[k].parent {
        var k :| LastEaten(A1, p, id, 0, k) && g[id].parent == A1[k].parent;
        assert LastEaten(A, p, id, 0, k);
      }
    }
    forall k | Eaten(A, p, id, 0, k)
      ensures r[k].(nbhd := []) == InitAtom
    {
      assert Eaten(A1, p, id, 0, k);
    }
    forall k | 0 <= k < |r| && k != id && !Eaten(A, p, id, 0, k)
      ensures r[k].(nbhd := A1[k].nbhd) == A1[k]
    {
      assert !Eaten(A1, p, id, 0, k);
    }
  }

  /** The atoms after the third-point branch are as ThirdAtoms says. */
  lemma ThirdPointAtoms(st: ShellState, ring: seq<int>, x: nat, p: Point)
    requires Consistent(Lists(st.atoms)) && GraphOk(st.vertices)
    ensures ThirdAtoms(st.atoms, ThirdPlaced(st, ring, x, p).0.atoms, p, FirstUnusedAtom(st.atoms))
  {
    var A, id := st.atoms, FirstUnusedAtom(st.atoms);
    SlotAdded(A, p);
    var A1 := AtomAdded(A, p, -1);
    var st1 := st.(atoms := A1);
    var g := Gathered(st1, ring, id, p, 0).0.atoms;
    assert AtomsAfter(A1, g, p, id, 0) by {
      GatheredAtoms(st1, ring, id, p, 0);
    }
    var a2 := Raised(g, id);
    var r := ThirdPlaced(st, ring, x, p).0.atoms;
    assert r == EdgeAdded(a2, x, id);
    assert |r| == |g| && forall k :: 0 <= k < |r| ==> r[k].(nbhd := a2[k].nbhd) == a2[k] by {
      AddEdgeFacts(a2, x, id);
    }
    ThirdAtomsOf(A, A1, g, r, p, id);
  }

  /** The edges r holds after the third-point branch, A before it: the merge loop's edges, as
      EdgesAfter says, and the edge from the ring atom x to the new atom id. */
  ghost predicate ThirdEdges(A: seq<ShellAtom>, r: seq<ShellAtom>, p: Point, id: nat, x: nat)
  {
    forall k, y :: Holds(Lists(r), k, y) <==>
      (!Eaten(A, p, id, 0, k) && !Eaten(A, p, id, 0, y) &&
       (Holds(Lists(A), k, y) || (k == id && y != id && Fed(A, p, id, 0, y)) ||
        (y == id && k != id && Fed(A, p, id, 0, k)))) ||
      (k == x && y == id) || (k == id && y == x)
  }

  /** ThirdEdges from the merge loop's EdgesAfter and the final SHL_addEdge. */
  lemma ThirdEdgesOf(A: seq<ShellAtom>, A1: seq<ShellAtom>, g: seq<ShellAtom>, r: seq<ShellAtom>,
                     p: Point, id: nat, x: nat)
    requires AddedSlot(A, A1, p, id) && EdgesAfter(A1, g, p, id, 0) && x < |A| && x != id && |g| == |A1|
    requires forall k, y :: Holds(Lists(r), k, y) <==>
      Holds(Lists(g), k, y) || (k == x && y == id) || (k == id && y == x)
    ensures ThirdEdges(A, r, p, id, x)
  {
    forall y
      ensures Fed(A1, p, id, 0, y) <==> Fed(A, p, id, 0, y)
    {
      if Fed(A1, p, id, 0, y) {
        var e :| Eaten(A1, p, id, 0, e) && Holds(Lists(A1), e, y);
        assert Eaten(A, p, id, 0, e) && Holds(Lists(A), e, y);
      }
      if Fed(A, p, id, 0, y) {
        var e :| Eaten(A, p, id, 0, e) && Holds(Lists(A), e, y);
        assert Eaten(A1, p, id, 0, e) && Holds(Lists(A1), e, y);
      }
    }
  }

  /** The edges after the third-point branch are as ThirdEdges says, x being a used atom. */
  lemma ThirdPointEdges(st: ShellState, ring: seq<int>, x: nat, p: Point)
    requires Consistent(Lists(st.atoms)) && GraphOk(st.vertices) && x < |st.atoms| && Used(st.atoms[x])
    ensures ThirdEdges(st.atoms, ThirdPlaced(st, ring, x, p).0.atoms, p, FirstUnusedAtom(st.atoms), x)
  {
    var A, id := st.atoms, FirstUnusedAtom(st.atoms);
    SlotAdded(A, p);
    var A1 := AtomAdded(A, p, -1);
    var st1 := st.(atoms := A1);
    var g := Gathered(st1, ring, id, p, 0).0.atoms;
    assert EdgesAfter(A1, g, p, id, 0) by {
      GatheredEdges(st1, ring, id, p, 0);
    }
    var a2 := Raised(g, id);
    var r := ThirdPlaced(st, ring, x, p).0.atoms;
    assert r == EdgeAdded(a2, x, id);
    assert forall k, y :: Holds(Lists(r), k, y) <==>
      Holds(Lists(g), k, y) || (k == x && y == id) || (k == id && y == x) by {
      AddEdgeFacts(a2, x, id);
    }
    ThirdEdgesOf(A, A1, g, r, p, id, x);
  }

  /** The ring list after the third-point branch: it gains the new atom exactly when a used
      atom closer than MINDIS_CYCLE to p, or the new atom's slot itself, is on the cycle list;
      the cycle list stays packed. */
  lemma ThirdPointRing(st: ShellState, ring: seq<int>, x: nat, p: Point)
    requires Consistent(Lists(st.atoms)) && GraphOk(st.vertices) && Packed(st.cycle) && Packed(ring)
    ensures var r, id := ThirdPlaced(st, ring, x, p), FirstUnusedAtom(st.atoms);
      Packed(r.0.cycle) && Packed(r.1) &&
      r.1 == if Sighted(st.atoms, st.cycle, p, 0) || id in Ids(st.cycle) then Added(ring, id) else ring
  {
    var A, id := st.atoms, FirstUnusedAtom(st.atoms);
    SlotAdded(A, p);
    var A1 := AtomAdded(A, p, -1);
    var st1 := st.(atoms := A1);
    var g := Gathered(st1, ring, id, p, 0);
    assert Packed(g.0.cycle) && g.1 == if Sighted(A1, st.cycle, p, 0) then Added(ring, id) else ring by {
      GatheredRing(st1, ring, id, p, 0);
    }
    assert Packed(Added(ring, id)) by {
      AddedIds(ring, id);
    }
    SightedAdded(A, A1, st.cycle, p, id);
  }

  /** A close atom on the cycle list after SHL_addAtom is one before it, or the new atom. */
  lemma SightedAdded(A: seq<ShellAtom>, A1: seq<ShellAtom>, c: seq<int>, p: Point, id: nat)
    requires AddedSlot(A, A1, p, id) && (id < |A| ==> !Used(A[id]))
    ensures Sighted(A1, c, p, 0) <==> Sighted(A, c, p, 0) || id in Ids(c)
  {
    assert Close(A1, p, id);
    if Sighted(A1, c, p, 0) {
      var k :| 0 <= k && Close(A1, p, k) && k in Ids(c);
      if k != id {
        assert Close(A, p, k);
      }
    }
    if Sighted(A, c, p, 0) {
      var k :| 0 <= k && Close(A, p, k) && k in Ids(c);
      assert k != id && Close(A1, p, k);
    }
  }

  /** No atom of consistent lists holds itself, even past its first free slot. */
  lemma NoSelfLoop(atoms: seq<ShellAtom>, k: nat)
    requires Consistent(Lists(atoms)) && k < |atoms|
    ensures k !in atoms[k].nbhd
  {
    ListFacts(atoms, k);
    if k in atoms[k].nbhd {
      PackedIn(atoms[k].nbhd, k);
    }
  }

  /** One turn of the merge loop, at slot j, as Turn says. */
  method GatherAt(s: Shell, ring: IdList, id: nat, p: Point, j: nat)
    requires Consistent(Lists(s.atoms)) && GraphOk(s.bond.vertices) && id < |s.atoms| && j < |s.atoms|
    modifies s, s.bond, ring
    ensures (s.State(), ring.elts) == Turn(old(s.State()), old(ring.elts), id, p, j)
  {
    if s.atoms[j].flag != NOT_DEF_F && DistInf(p, s.atoms[j].coords, MINDIS_CYCLE) {
      var cl := new IdList();
      cl.elts := s.cycle;
      var c := cl.Check(j);
      if c == 1 {
        ring.AddElement(id);
      }
      if s.atoms[j].flag != SHELL_F {
        NoSelfLoop(s.atoms, j);
        MergeDefined(s.State(), id, j);
        s.MergeAtom(id, j);
      }
    }
  }

  /** The merge loop of the third-point branch, over every slot, as Gathered says. */
  method Gather(s: Shell, ring: IdList, id: nat, p: Point)
    requires Consistent(Lists(s.atoms)) && GraphOk(s.bond.vertices) && id < |s.atoms|
    modifies s, s.bond, ring
    ensures (s.State(), ring.elts) == Gathered(old(s.State()), old(ring.elts), id, p, 0)
  {
    ghost var target := Gathered(s.State(), ring.elts, id, p, 0);
    ghost var n := |s.atoms|;
    var j := 0;
    while j < |s.atoms|
      invariant Consistent(Lists(s.atoms)) && GraphOk(s.bond.vertices) && id < |s.atoms| == n
      invariant Gathered(s.State(), ring.elts, id, p, j) == target
    {
      ghost var before, rb := s.State(), ring.elts;
      GatherAt(s, ring, id, p, j);
      assert Gathered(before, rb, id, p, j) == Gathered(s.State(), ring.elts, id, p, j + 1);
      j := j + 1;
    }
  }

  /** The third-point branch of generateCycle for the ring atom x, p being the point
      addThirdPoint gives: the new atom, the merge loop over every slot, the LINKABLE_F raise
      and the edge from x, as ThirdPlaced says. */
  method ThirdPoint(s: Shell, ring: IdList, x: nat, p: Point)
    requires Consistent(Lists(s.atoms)) && GraphOk(s.bond.vertices) && Packed(ring.elts)
    modifies s, s.bond, ring
    ensures (s.State(), ring.elts) == ThirdPlaced(old(s.State()), old(ring.elts), x, p)
  {
    ghost var st, r0 := s.State(), ring.elts;
    SlotAdded(st.atoms, p);
    var id := s.AddAtom(p, -1);
    ghost var st1 := st.(atoms := AtomAdded(st.atoms, p, -1));
    assert s.State() == st1;
    Gather(s, ring, id, p);
    ghost var g := Gathered(st1, r0, id, p, 0);
    assert s.State() == g.0 && ring.elts == g.1;
    if s.atoms[id].flag <= LINKABLE_F {
      s.atoms := s.atoms[id := s.atoms[id].(flag := LINKABLE_F)];
    }
    assert s.atoms == Raised(g.0.atoms, id);
    s.AddEdge(x, id);
    assert (s.State(), ring.elts) == (g.0.(atoms := EdgeAdded(Raised(g.0.atoms, id), x, id)), g.1);
  }

  /*********************************************************************************************
   * generateCycle
   *********************************************************************************************/

  /** SqDist does not depend on the order of its points. */
  lemma SqDistSymmetric(a: Point, b: Point)
    ensures SqDist(a, b) == SqDist(b, a)
  {
    assert (a.x - b.x) * (a.x - b.x) == (b.x - a.x) * (b.x - a.x);
    assert (a.y - b.y) * (a.y - b.y) == (b.y - a.y) * (b.y - a.y);
    assert (a.z - b.z) * (a.z - b.z) == (b.z - a.z) * (b.z - a.z);
  }

  /** A flagged candidate k keeps its list through the step of another candidate z: z cuts k
      only when they are farther apart than MAXDIS_CYCLE, and then k, which keeps only near
      neighbours, does not list z, so neither does z list k. */
  lemma RingKeptSurvives(a0: seq<ShellAtom>, a1: seq<ShellAtom>, ring: seq<int>, z: nat, k: nat,
                         cut: seq<int>, enough: bool)
    requires Consistent(Lists(a0)) && Consistent(Lists(a1)) && Kept(a0, a1)
    requires z < |a0| && k < |a0| && k != z && k in ring && RingKept(a0, ring, k)
    requires InSlots(a0, Ids(a0[z].nbhd))
    requires cut == Offs(a0, ring, z, Ids(a0[z].nbhd), |Ids(a0[z].nbhd)|)
    requires forall k, y :: Holds(Lists(a1), k, y) <==> Holds(Lists(a0), k, y) && !(enough && Severed(z, cut, k, y))
    ensures RingKept(a1, ring, k)
  {
    var nb := Ids(a0[z].nbhd);
    OffsAre(a0, ring, z, nb, |nb|);
    assert nb[..|nb|] == nb;
    if k in cut {
      assert Holds(Lists(a0), z, k);
      assert RowOk(Neighbourhoods(Lists(a0)), z);
      assert z in Ids(a0[k].nbhd);
      SqDistSymmetric(a0[z].coords, a0[k].coords);
      assert false;
    }
    ListFacts(a0, k);
    ListFacts(a1, k);
    DropCount(Ids(a0[k].nbhd), [], Ids(a1[k].nbhd));
  }

  /** The candidates are distinct slots. */
  lemma CandidatesDistinct(atoms: seq<ShellAtom>, cycle: seq<int>)
    ensures NoDup(Candidates(atoms, cycle, |atoms|))
  {
    CandidatesAre(atoms, cycle, |atoms|);
  }

  /** The neighbour relation of consistent lists is symmetric. */
  lemma HoldsSym(L: seq<seq<int>>, k: int, y: int)
    requires Consistent(L) && Holds(L, k, y)
    ensures Holds(L, y, k)
  {
    assert RowOk(Neighbourhoods(L), k);
  }

  /** Slot k has no neighbour. */
  ghost predicate Bare(atoms: seq<ShellAtom>, k: int)
  {
    forall y :: !Holds(Lists(atoms), k, y)
  }

  /** The atom a is blank but for its list: merged away, or never used. */
  predicate Blank(a: ShellAtom)
  {
    a.(nbhd := []) == InitAtom
  }

  /** The atom a keeps the coordinates and the parent of a0, and its flag or CYCLE_F. */
  predicate Stays(a0: ShellAtom, a: ShellAtom)
  {
    a.coords == a0.coords && a.parent == a0.parent && (a.flag == a0.flag || a.flag == CYCLE_F)
  }

  /** What generateCycle may have done to the atoms a0, the slots of made being the new ring
      neighbours it placed: every edge is an old one or touches a new atom; every other atom
      was merged away or keeps its coordinates, its parent and its flag or CYCLE_F; the slots
      made by growing the array that hold no new atom are blank; a new atom still there is at
      least LINKABLE_F. */
  ghost predicate Outcome(a0: seq<ShellAtom>, atoms: seq<ShellAtom>, made: set<int>)
  {
    |a0| <= |atoms| &&
    (forall k, y :: Holds(Lists(atoms), k, y) ==> Holds(Lists(a0), k, y) || k in made || y in made) &&
    (forall k :: 0 <= k < |a0| && k !in made ==> Blank(atoms[k]) || Stays(a0[k], atoms[k])) &&
    (forall k :: |a0| <= k < |atoms| && k !in made ==> Blank(atoms[k])) &&
    (forall k :: k in made ==> 0 <= k < |atoms| && (Blank(atoms[k]) || atoms[k].flag >= LINKABLE_F))
  }

  /** The ring list R from entry i on: its entries are distinct slots, and an entry not yet
      handled whose atom is unused has no neighbour. */
  ghost predicate Pending(atoms: seq<ShellAtom>, R: seq<int>, i: nat)
  {
    NoDup(R) && (forall t :: 0 <= t < |R| ==> 0 <= R[t] < |atoms|) &&
    forall t :: i <= t < |R| && !Used(atoms[R[t]]) ==> Bare(atoms, R[t])
  }

  /** The cut step of entry i, x, keeps Outcome and hands Pending on to entry i + 1: it only
      removes edges and may flag x CYCLE_F, which it does only when x has neighbours. */
  lemma CutKeeps(a0: seq<ShellAtom>, a: seq<ShellAtom>, a1: seq<ShellAtom>, made: set<int>,
                 R: seq<int>, i: nat, x: nat, enough: bool)
    requires Outcome(a0, a, made) && Pending(a, R, i) && i < |R| && R[i] == x && Kept(a, a1)
    requires forall k :: 0 <= k < |a1| && k != x ==> a1[k].flag == a[k].flag
    requires forall k, y :: Holds(Lists(a1), k, y) ==> Holds(Lists(a), k, y)
    requires a1[x].flag == (if enough then CYCLE_F else a[x].flag)
    requires enough ==> !Bare(a, x)
    ensures Outcome(a0, a1, made) && Pending(a1, R, i + 1)
  {
    forall k | 0 <= k < |a1| && k != x
      ensures a1[k].(nbhd := a[k].nbhd) == a[k]
    {
    }
    if enough {
      assert Used(a[x]) && !Blank(a[x]);
    }
    forall t | i + 1 <= t < |R| && !Used(a1[R[t]])
      ensures Bare(a1, R[t])
    {
      assert R[t] != x;
    }
  }

  /** The third-point branch on entry i, x, keeps Outcome with the new atom among the new
      ones. */
  lemma ThirdOutcome(a0: seq<ShellAtom>, A: seq<ShellAtom>, r: seq<ShellAtom>, made: set<int>,
                     p: Point, id: nat, x: nat)
    requires Outcome(a0, A, made) && ThirdAtoms(A, r, p, id) && ThirdEdges(A, r, p, id, x)
    ensures Outcome(a0, r, made + {id})
  {
    forall k | 0 <= k < |A| && k != id && !Eaten(A, p, id, 0, k)
      ensures Blank(r[k]) == Blank(A[k]) && Stays(A[k], r[k])
    {
      assert r[k].(nbhd := A[k].nbhd) == A[k];
    }
    forall k | k in made + {id}
      ensures 0 <= k < |r| && (Blank(r[k]) || r[k].flag >= LINKABLE_F)
    {
      if k != id && !Eaten(A, p, id, 0, k) {
        assert r[k].(nbhd := A[k].nbhd) == A[k];
      }
    }
  }

  /** The third-point branch on entry i, x, hands Pending on to entry i + 1, the ring list
      having gained the new atom, or not. */
  lemma ThirdPending(A: seq<ShellAtom>, r: seq<ShellAtom>, R: seq<int>, R2: seq<int>, i: nat,
                     p: Point, id: nat, x: nat)
    requires Consistent(Lists(A)) && Pending(A, R, i + 1) && i < |R| && R[i] == x
    requires ThirdAtoms(A, r, p, id) && ThirdEdges(A, r, p, id, x)
    requires R2 == R || (R2 == R + [id] && id !in R)
    ensures Pending(r, R2, i + 1)
  {
    forall t | i + 1 <= t < |R2| && !Used(r[R2[t]])
      ensures Bare(r, R2[t])
    {
      var e := R2[t];
      assert e != id && t < |R| && e != x;
      if !Eaten(A, p, id, 0, e) {
        assert r[e].(nbhd := A[e].nbhd) == A[e];
        forall y
          ensures !Holds(Lists(r), e, y)
        {
          if Fed(A, p, id, 0, e) {
            var f :| Eaten(A, p, id, 0, f) && Holds(Lists(A), f, e);
            HoldsSym(Lists(A), f, e);
          }
        }
      }
    }
  }

  /** The third-point branch on entry i, x, keeps the invariant of generateCycle's loop. */
  lemma ThirdKeeps(a0: seq<ShellAtom>, st: ShellState, ring: seq<int>, made: set<int>, i: nat,
                   x: nat, p: Point)
    requires Consistent(Lists(st.atoms)) && GraphOk(st.vertices) && Packed(st.cycle) && Packed(ring)
    requires Outcome(a0, st.atoms, made) && Pending(st.atoms, Ids(ring), i + 1)
    requires i < |Ids(ring)| && Ids(ring)[i] == x && Used(st.atoms[x])
    ensures var r, id := ThirdPlaced(st, ring, x, p), FirstUnusedAtom(st.atoms);
      Outcome(a0, r.0.atoms, made + {id}) && Pending(r.0.atoms, Ids(r.1), i + 1) &&
      Packed(r.0.cycle) && Packed(r.1) && |Ids(ring)| <= |Ids(r.1)|
  {
    var A, id := st.atoms, FirstUnusedAtom(st.atoms);
    var r := ThirdPlaced(st, ring, x, p);
    ThirdPointAtoms(st, ring, x, p);
    ThirdPointEdges(st, ring, x, p);
    ThirdPointRing(st, ring, x, p);
    AddedIds(ring, id);
    assert x != id;
    ThirdOutcome(a0, A, r.0.atoms, made, p, id, x);
    ThirdPending(A, r.0.atoms, Ids(ring), Ids(r.1), i, p, id, x);
  }

  /** One turn of generateCycle's loop, on entry i of the ring list: the cut step, then the
      third-point branch when the entry is flagged and keeps exactly two neighbours, the point
      being the one addThirdPoint gives at SIMPLE_CYCLE from it. */
  method RingTurn(s: Shell, ring: IdList, i: nat, place: (Point, Point, Point, real) -> Point,
                  ghost a0: seq<ShellAtom>, ghost made: set<int>) returns (ghost made': set<int>)
    requires Consistent(Lists(s.atoms)) && GraphOk(s.bond.vertices) && Packed(s.cycle) && Packed(ring.elts)
    requires i < FirstFree(ring.elts) && Outcome(a0, s.atoms, made) && Pending(s.atoms, Ids(ring.elts), i)
    modifies s, s.bond, ring
    ensures Consistent(Lists(s.atoms)) && GraphOk(s.bond.vertices) && Packed(s.cycle) && Packed(ring.elts)
    ensures old(FirstFree(ring.elts)) <= FirstFree(ring.elts)
    ensures Outcome(a0, s.atoms, made') && Pending(s.atoms, Ids(ring.elts), i + 1)
  {
    var x := ring.elts[i];
    assert x == Ids(ring.elts)[i];
    ghost var a := s.atoms;
    var enough := RingStep(s, ring, x);
    if enough {
      ListFacts(a, x);
      assert Holds(Lists(a), x, Ids(a[x].nbhd)[0]);
    }
    CutKeeps(a0, a, s.atoms, made, Ids(ring.elts), i, x, enough);
    made' := made;
    if enough {
      made' := ThirdBranch(s, ring, i, x, place, a0, made);
    }
  }

  /** The guard of the third-point branch for entry i, x, now flagged: SHL_nbNeighborhood(x)
      is 2, and the point comes from x and its two neighbours. */
  method ThirdBranch(s: Shell, ring: IdList, i: nat, x: nat, place: (Point, Point, Point, real) -> Point,
                     ghost a0: seq<ShellAtom>, ghost made: set<int>) returns (ghost made': set<int>)
    requires Consistent(Lists(s.atoms)) && GraphOk(s.bond.vertices) && Packed(s.cycle) && Packed(ring.elts)
    requires i < |Ids(ring.elts)| && Ids(ring.elts)[i] == x && x < |s.atoms| && Used(s.atoms[x])
    requires Outcome(a0, s.atoms, made) && Pending(s.atoms, Ids(ring.elts), i + 1)
    modifies s, s.bond, ring
    ensures Consistent(Lists(s.atoms)) && GraphOk(s.bond.vertices) && Packed(s.cycle) && Packed(ring.elts)
    ensures old(|Ids(ring.elts)|) <= |Ids(ring.elts)|
    ensures Outcome(a0, s.atoms, made') && Pending(s.atoms, Ids(ring.elts), i + 1)
  {
    made' := made;
    var nl := new IdList();
    nl.elts := s.atoms[x].nbhd;
    var n := nl.NbElements();
    if n == 2 {
      ListFacts(s.atoms, x);
      var nb := s.atoms[x].nbhd;
      assert nb[0] == Ids(nb)[0] && nb[1] == Ids(nb)[1];
      var p := place(s.atoms[x].coords, s.atoms[nb[0]].coords, s.atoms[nb[1]].coords, SIMPLE_CYCLE);
      ghost var st, r := s.State(), ring.elts;
      ThirdPoint(s, ring, x, p);
      ThirdKeeps(a0, st, r, made, i, x, p);
      made' := made + {FirstUnusedAtom(st.atoms)};
    }
  }

  /** generateCycle, place standing for addThirdPoint: the ring candidates are collected, then
      each entry of the ring list in turn loses its cut edges and is flagged CYCLE_F when at
      least two neighbours remain, and gets a new third neighbour when exactly two do; the
      entries the third-point branch adds are handled in turn. At most fuel entries are
      handled. The lists and the graph stay consistent, and the atoms change only as Outcome
      allows, made being the slots of the new atoms. */
  method GenerateCycle(s: Shell, place: (Point, Point, Point, real) -> Point, fuel: nat)
    returns (ghost made: set<int>)
    requires Consistent(Lists(s.atoms)) && GraphOk(s.bond.vertices) && Packed(s.cycle)
    modifies s, s.bond
    ensures Consistent(Lists(s.atoms)) && GraphOk(s.bond.vertices) && Packed(s.cycle)
    ensures Outcome(old(s.atoms), s.atoms, made)
  {
    ghost var a0 := s.atoms;
    var ring := CycleAtoms(s);
    CandidatesAre(a0, s.cycle, |a0|);
    CandidatesDistinct(a0, s.cycle);
    made := {};
    var i := 0;
    while i < fuel && i < |ring.elts| && ring.elts[i] != FREE
      invariant Consistent(Lists(s.atoms)) && GraphOk(s.bond.vertices) && Packed(s.cycle)
      invariant Packed(ring.elts) && i <= FirstFree(ring.elts)
      invariant Outcome(a0, s.atoms, made) && Pending(s.atoms, Ids(ring.elts), i)
      decreases fuel - i
    {
      made := RingTurn(s, ring, i, place, a0, made);
      i := i + 1;
    }
  }
}
