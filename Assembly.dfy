/**
 * The grouping and reachability logic of cage assembly, src/assembly.c. Here an atom's flag is
 * its type: 0 for an atom of the envelope, -1 for an unused slot, and 1, 3 or 4 for an atom of
 * an inserted pattern (oxygen, nitrogen, carbon). A group is a set of pattern atoms joined by
 * bonds; assembly repeatedly joins two border atoms of different groups by a generated path.
 * The geometry of the inserted motifs is not modelled: genererChemin is given it as functions.
 */
module Assembly {
  import opened Constants
  import opened IdLists
  import opened Shells
  import opened LinkedLists
  import Mains

  /** Number of motifs the path generator knows (NB_MOTIF). */
  const NB_MOTIF: int := 5

  /*********************************************************************************************
   * typeInsert
   *********************************************************************************************/

  /** The flag of the atom a motif inserts: oxygen for motif 0, nitrogen for motif 1 and carbon
      for every other motif. */
  function TypeInsert(numMotif: int): (t: int)
    ensures t == 1 || t == 3 || t == 4
    ensures t == 1 <==> numMotif == 0
    ensures t == 3 <==> numMotif == 1
  {
    if numMotif == 0 then 1
    else if numMotif == 1 then 3
    else 4
  }

  /*********************************************************************************************
   * bordureCheck
   *********************************************************************************************/

  /** Every id before LST_nbElements in every list is a slot, so bordureCheck never reads
      outside the atom array. */
  ghost predicate UsedInRange(atoms: seq<ShellAtom>)
  {
    forall i, k :: 0 <= i < |atoms| && 0 <= k < UsedLength(atoms[i].nbhd) ==> 0 <= atoms[i].nbhd[k] < |atoms|
  }

  /** Atom i lies in a pattern and one of the ids of its list, up to the last used slot, is an
      atom of the envelope. */
  ghost predicate OnBorder(atoms: seq<ShellAtom>, i: int)
  {
    0 <= i < |atoms| && atoms[i].flag != 0 &&
    exists k :: 0 <= k < UsedLength(atoms[i].nbhd) && 0 <= atoms[i].nbhd[k] < |atoms| &&
      atoms[atoms[i].nbhd[k]].flag == 0
  }

  /** bordureCheck: 1 exactly when atom i is a border atom of its pattern. */
  method BordureCheck(atoms: seq<ShellAtom>, i: nat) returns (b: int)
    requires UsedInRange(atoms) && i < |atoms|
    ensures b == 0 || b == 1
    ensures b == 1 <==> OnBorder(atoms, i)
  {
    var nb := atoms[i].nbhd;
    var n := UsedLength(nb);
    var k := 0;
    while k < n
      invariant 0 <= k <= n
      invariant forall l :: 0 <= l < k ==> !(atoms[nb[l]].flag == 0 && atoms[i].flag != 0)
    {
      if atoms[nb[k]].flag == 0 && atoms[i].flag != 0 {
        return 1;
      }
      k := k + 1;
    }
    return 0;
  }

  /*********************************************************************************************
   * parcours and existeChemin
   *********************************************************************************************/

  /** y is listed by x before x's first free slot and is a pattern atom: the move parcours makes
      from x. */
  ghost predicate PatternStep(atoms: seq<ShellAtom>, x: int, y: int)
  {
    0 <= x < |atoms| && y in Ids(atoms[x].nbhd) && 0 <= y < |atoms| && atoms[y].flag != 0
  }

  /** A walk of at least one move, each move a PatternStep. */
  ghost predicate PatternWalk(atoms: seq<ShellAtom>, w: seq<int>)
  {
    |w| >= 2 && forall t :: 0 <= t < |w| - 1 ==> PatternStep(atoms, w[t], w[t + 1])
  }

  /** b can be reached from a through pattern atoms only: a and b are in the same group. */
  ghost predicate Linked(atoms: seq<ShellAtom>, a: int, b: int)
  {
    exists w :: PatternWalk(atoms, w) && w[0] == a && w[|w| - 1] == b
  }

  /** Every pattern atom x moves to is marked and is not b. */
  ghost predicate Closed(atoms: seq<ShellAtom>, x: int, marks: seq<int>, b: int)
  {
    forall y :: PatternStep(atoms, x, y) ==> y != b && y in marks
  }

  /** All marks are slots. */
  ghost predicate Slots(atoms: seq<ShellAtom>, marks: seq<int>)
  {
    forall x :: x in marks ==> 0 <= x < |atoms|
  }

  /** The slots not yet marked: what is left for parcours to visit. */
  ghost function Unmarked(atoms: seq<ShellAtom>, marked: seq<int>): set<int>
  {
    set x | 0 <= x < |atoms| && x !in Ids(marked)
  }

  /** Marking a new slot shrinks what is left to visit. */
  lemma UnmarkedShrinks(atoms: seq<ShellAtom>, m1: seq<int>, m2: seq<int>, a: int)
    requires 0 <= a < |atoms| && a !in Ids(m1) && a in Ids(m2)
    requires forall x :: x in Ids(m1) ==> x in Ids(m2)
    ensures Unmarked(atoms, m2) < Unmarked(atoms, m1)
  {
    assert a in Unmarked(atoms, m1);
  }

  /** A move to y followed by a walk from y to b is a walk from a to b. */
  lemma LinkedPrepend(atoms: seq<ShellAtom>, a: int, y: int, b: int)
    requires PatternStep(atoms, a, y) && Linked(atoms, y, b)
    ensures Linked(atoms, a, b)
  {
    var w :| PatternWalk(atoms, w) && w[0] == y && w[|w| - 1] == b;
    var w' := [a] + w;
    forall t | 0 <= t < |w'| - 1
      ensures PatternStep(atoms, w'[t], w'[t + 1])
    {
      if t > 0 {
        assert w'[t] == w[t - 1] && w'[t + 1] == w[t];
      }
    }
    assert PatternWalk(atoms, w');
  }

  /** A walk that starts in a set of closed marks stays in it and never meets b. */
  lemma {:induction false} WalkStaysMarked(atoms: seq<ShellAtom>, marks: seq<int>, b: int, w: seq<int>, t: nat)
    requires PatternWalk(atoms, w) && w[0] in marks
    requires forall x :: x in marks ==> Closed(atoms, x, marks, b)
    requires 1 <= t < |w|
    ensures w[t] in marks && w[t] != b
    decreases t
  {
    if t > 1 {
      WalkStaysMarked(atoms, marks, b, w, t - 1);
    }
    assert PatternStep(atoms, w[t - 1], w[t]);
    assert Closed(atoms, w[t - 1], marks, b);
  }

  /** Nothing outside a closed set of marks is reachable from inside it. */
  lemma NotLinked(atoms: seq<ShellAtom>, marks: seq<int>, a: int, b: int)
    requires a in marks && forall x :: x in marks ==> Closed(atoms, x, marks, b)
    ensures !Linked(atoms, a, b)
  {
    if Linked(atoms, a, b) {
      var w :| PatternWalk(atoms, w) && w[0] == a && w[|w| - 1] == b;
      WalkStaysMarked(atoms, marks, b, w, |w| - 1);
    }
  }

  /** The i-th entry of a's list, before its first free slot, is a move when it is a pattern
      atom. */
  lemma StepAt(atoms: seq<ShellAtom>, a: int, i: nat)
    requires ListsInRange(atoms) && 0 <= a < |atoms|
    requires i <= FirstFree(atoms[a].nbhd) && i < |atoms[a].nbhd| && atoms[a].nbhd[i] != FREE
    ensures 0 <= atoms[a].nbhd[i] < |atoms|
    ensures atoms[atoms[a].nbhd[i]].flag != 0 ==> PatternStep(atoms, a, atoms[a].nbhd[i])
  {
    assert Ids(atoms[a].nbhd)[i] == atoms[a].nbhd[i];
  }

  /** Every mark outside prior is closed. */
  ghost predicate ClosedOutside(atoms: seq<ShellAtom>, marks: seq<int>, prior: seq<int>, b: int)
  {
    forall x :: x in marks && x !in prior ==> Closed(atoms, x, marks, b)
  }

  /** Marks closed since before stay closed when the marks grow to after, and so do the marks
      after closed since before. */
  lemma ClosedOutsideGrows(atoms: seq<ShellAtom>, m0: seq<int>, before: seq<int>, after: seq<int>, b: int)
    requires ClosedOutside(atoms, before, m0, b) && ClosedOutside(atoms, after, before, b)
    requires forall y :: y in before ==> y in after
    ensures ClosedOutside(atoms, after, m0, b)
  {
    forall x | x in after && x !in m0
      ensures Closed(atoms, x, after, b)
    {
      if x in before {
        assert Closed(atoms, x, before, b);
      }
    }
  }

  /** Once a itself is closed, every mark outside m0 is. */
  lemma ClosedOutsideAdd(atoms: seq<ShellAtom>, marks: seq<int>, m0: seq<int>, a: int, b: int)
    requires ClosedOutside(atoms, marks, m0 + [a], b) && Closed(atoms, a, marks, b)
    ensures ClosedOutside(atoms, marks, m0, b)
  {
    forall x | x in marks && x !in m0
      ensures Closed(atoms, x, marks, b)
    {
      if x != a {
        assert x !in m0 + [a];
      }
    }
  }

  /** The first i entries of nb that are pattern atoms are all marked and differ from b. */
  ghost predicate Scanned(atoms: seq<ShellAtom>, nb: seq<int>, i: int, marks: seq<int>, b: int)
    requires i <= |nb|
  {
    forall k :: (0 <= k < i && 0 <= nb[k] < |atoms| && atoms[nb[k]].flag != 0) ==>
      nb[k] != b && nb[k] in marks
  }

  /** Scanning one more entry, as the marks grow. */
  lemma ScannedStep(atoms: seq<ShellAtom>, nb: seq<int>, i: nat, m1: seq<int>, m2: seq<int>, b: int)
    requires i < |nb| && Scanned(atoms, nb, i, m1, b) && forall x :: x in m1 ==> x in m2
    requires (0 <= nb[i] < |atoms| && atoms[nb[i]].flag != 0) ==> nb[i] != b && nb[i] in m2
    ensures Scanned(atoms, nb, i + 1, m2, b)
  {
  }

  /** An atom whose listed pattern neighbours are all marked and differ from b is closed. */
  lemma ScannedClosed(atoms: seq<ShellAtom>, a: int, marks: seq<int>, b: int)
    requires 0 <= a < |atoms|
    requires Scanned(atoms, atoms[a].nbhd, FirstFree(atoms[a].nbhd), marks, b)
    ensures Closed(atoms, a, marks, b)
  {
    var nb := atoms[a].nbhd;
    forall y | PatternStep(atoms, a, y)
      ensures y != b && y in marks
    {
      var k :| 0 <= k < |Ids(nb)| && Ids(nb)[k] == y;
      assert nb[k] == y;
    }
  }

  /** parcours: depth-first search from a through pattern atoms, marking every atom it enters
      in the list marked. It answers 1 only when b is reachable; when it answers 0, every atom it
      marked has all its pattern neighbours marked and none of them is b. */
  method Parcours(atoms: seq<ShellAtom>, marked: IdList, a: int, b: int) returns (r: int)
    requires ListsInRange(atoms) && 0 <= a < |atoms|
    requires Packed(marked.elts) && a !in Ids(marked.elts) && Slots(atoms, Ids(marked.elts))
    modifies marked
    decreases Unmarked(atoms, marked.elts), 0
    ensures Packed(marked.elts) && Slots(atoms, Ids(marked.elts)) && a in Ids(marked.elts)
    ensures forall x :: x in Ids(old(marked.elts)) ==> x in Ids(marked.elts)
    ensures r == 0 || r == 1
    ensures r == 1 ==> Linked(atoms, a, b)
    ensures r == 0 ==> ClosedOutside(atoms, Ids(marked.elts), Ids(old(marked.elts)), b)
  {
    ghost var m0 := Ids(marked.elts);
    ghost var entry := marked.elts;
    var nb := atoms[a].nbhd;
    AddToPacked(marked, a);
    if |nb| == 0 {
      ScannedClosed(atoms, a, Ids(marked.elts), b);
      ClosedOutsideAdd(atoms, Ids(marked.elts), m0, a, b);
      return 0;
    }
    var i := 0;
    while i < |nb| && nb[i] != FREE
      invariant 0 <= i <= FirstFree(nb)
      invariant Packed(marked.elts) && Slots(atoms, Ids(marked.elts)) && a in Ids(marked.elts)
      invariant forall x :: x in m0 ==> x in Ids(marked.elts)
      invariant ClosedOutside(atoms, Ids(marked.elts), m0 + [a], b)
      invariant Scanned(atoms, nb, i, Ids(marked.elts), b)
      decreases |nb| - i
    {
      UnmarkedShrinks(atoms, entry, marked.elts, a);
      var v := ScanAt(atoms, marked, a, i, b, m0 + [a]);
      if v == 1 {
        return 1;
      }
      i := i + 1;
    }
    ScannedClosed(atoms, a, Ids(marked.elts), b);
    ClosedOutsideAdd(atoms, Ids(marked.elts), m0, a, b);
    return 0;
  }

  /** One turn of parcours's loop over a's list, at entry i: a pattern neighbour that is b ends
      the search with 1; another one is visited. */
  method ScanAt(atoms: seq<ShellAtom>, marked: IdList, a: int, i: nat, b: int, ghost prior: seq<int>)
      returns (r: int)
    requires ListsInRange(atoms) && 0 <= a < |atoms|
    requires i <= FirstFree(atoms[a].nbhd) && i < |atoms[a].nbhd| && atoms[a].nbhd[i] != FREE
    requires Packed(marked.elts) && Slots(atoms, Ids(marked.elts)) && a in Ids(marked.elts)
    requires ClosedOutside(atoms, Ids(marked.elts), prior, b)
    requires Scanned(atoms, atoms[a].nbhd, i, Ids(marked.elts), b)
    modifies marked
    decreases Unmarked(atoms, marked.elts), 2
    ensures Packed(marked.elts) && Slots(atoms, Ids(marked.elts))
    ensures forall x :: x in Ids(old(marked.elts)) ==> x in Ids(marked.elts)
    ensures r == 0 || r == 1
    ensures r == 1 ==> Linked(atoms, a, b)
    ensures r == 0 ==> ClosedOutside(atoms, Ids(marked.elts), prior, b)
    ensures r == 0 ==> Scanned(atoms, atoms[a].nbhd, i + 1, Ids(marked.elts), b)
  {
    ghost var scanned := Ids(marked.elts);
    var y := atoms[a].nbhd[i];
    StepAt(atoms, a, i);
    if atoms[y].flag != 0 {
      if y == b {
        assert PatternWalk(atoms, [a, b]);
        return 1;
      }
      var v := Visit(atoms, marked, y, b);
      if v == 1 {
        LinkedPrepend(atoms, a, y, b);
        return 1;
      }
      ClosedOutsideGrows(atoms, prior, scanned, Ids(marked.elts), b);
    }
    ScannedStep(atoms, atoms[a].nbhd, i, scanned, Ids(marked.elts), b);
    return 0;
  }

  /** The visit of a pattern neighbour y other than b: the search goes on from y only when y is
      not marked yet. */
  method Visit(atoms: seq<ShellAtom>, marked: IdList, y: int, b: int) returns (v: int)
    requires ListsInRange(atoms) && 0 <= y < |atoms|
    requires Packed(marked.elts) && Slots(atoms, Ids(marked.elts))
    modifies marked
    decreases Unmarked(atoms, marked.elts), 1
    ensures Packed(marked.elts) && Slots(atoms, Ids(marked.elts)) && y in Ids(marked.elts)
    ensures forall x :: x in Ids(old(marked.elts)) ==> x in Ids(marked.elts)
    ensures v == 0 || v == 1
    ensures v == 1 ==> Linked(atoms, y, b)
    ensures v == 0 ==> ClosedOutside(atoms, Ids(marked.elts), Ids(old(marked.elts)), b)
  {
    var c := marked.Check(y);
    if c == 0 {
      v := Parcours(atoms, marked, y, b);
    } else {
      v := 0;
    }
  }

  /** existeChemin: parcours on a fresh list of marks, which is then dropped. It answers 1
      exactly when b is reachable from a through pattern atoms. */
  method ExisteChemin(atoms: seq<ShellAtom>, a: int, b: int) returns (r: int)
    requires ListsInRange(atoms) && 0 <= a < |atoms|
    ensures r == 0 || r == 1
    ensures r == 1 <==> Linked(atoms, a, b)
  {
    var marked := new IdList();
    r := Parcours(atoms, marked, a, b);
    if r == 0 {
      NotLinked(atoms, Ids(marked.elts), a, b);
    }
  }

  /*********************************************************************************************
   * choixSommets
   *********************************************************************************************/

  lemma {:induction false} AtomCountBound(atoms: seq<ShellAtom>)
    ensures AtomCount(atoms) <= |atoms|
  {
    if atoms != [] {
      AtomCountBound(atoms[..|atoms| - 1]);
    }
  }

  /** (i, j) is a pair choixSommets offers to join: two border atoms of different groups, i
      before j, both below the atom count n. */
  ghost predicate Chosen(atoms: seq<ShellAtom>, n: int, i: int, j: int)
  {
    0 <= i < j < n && n <= |atoms| && OnBorder(atoms, i) && OnBorder(atoms, j) && !Linked(atoms, i, j)
  }

  /** p comes before q in the order of the two nested loops. */
  predicate Earlier(p: Ends, q: Ends)
  {
    p.start < q.start || (p.start == q.start && p.end < q.end)
  }

  /** p was visited by the loops before they reach (i, j). */
  predicate Before(p: Ends, i: int, j: int)
  {
    p.start < i || (p.start == i && p.end < j)
  }

  /** pairs holds exactly the chosen pairs the loops have passed before reaching (i, j). */
  ghost predicate Listed(atoms: seq<ShellAtom>, n: int, pairs: seq<Ends>, i: int, j: int)
  {
    forall p :: p in pairs <==> Chosen(atoms, n, p.start, p.end) && Before(p, i, j)
  }

  /** The pairs are in the order of the loops. */
  predicate Ordered(pairs: seq<Ends>)
  {
    forall k, l :: 0 <= k < l < |pairs| ==> Earlier(pairs[k], pairs[l])
  }

  /** The inner loop starts at j = i + 1: no chosen pair starts at i and ends at or before i. */
  lemma ListedEnter(atoms: seq<ShellAtom>, n: int, pairs: seq<Ends>, i: int)
    requires Listed(atoms, n, pairs, i, 0)
    ensures Listed(atoms, n, pairs, i, i + 1)
  {
  }

  /** When the inner loop is over, or is skipped because i is not on the border, every chosen pair
      starting at i has been seen. */
  lemma ListedLeave(atoms: seq<ShellAtom>, n: int, pairs: seq<Ends>, i: int, j: int)
    requires Listed(atoms, n, pairs, i, j)
    requires j >= n || (j == 0 && !OnBorder(atoms, i))
    ensures Listed(atoms, n, pairs, i + 1, 0)
  {
  }

  /** One step of the inner loop: (i, j) is appended exactly when it is chosen, which keeps the
      list complete. */
  lemma ListedStep(atoms: seq<ShellAtom>, n: int, pairs: seq<Ends>, i: int, j: int, chosen: bool)
    requires Listed(atoms, n, pairs, i, j)
    requires chosen == Chosen(atoms, n, i, j)
    ensures Listed(atoms, n, if chosen then pairs + [Ends(i, j)] else pairs, i, j + 1)
  {
    var pairs' := if chosen then pairs + [Ends(i, j)] else pairs;
    forall p
      ensures p in pairs' <==> Chosen(atoms, n, p.start, p.end) && Before(p, i, j + 1)
    {
      if p != Ends(i, j) {
        assert p in pairs' <==> p in pairs;
      }
    }
  }

  /** Appending (i, j) after pairs that all come before it keeps the loop order. */
  lemma OrderedStep(atoms: seq<ShellAtom>, n: int, pairs: seq<Ends>, i: int, j: int)
    requires Listed(atoms, n, pairs, i, j) && Ordered(pairs)
    ensures Ordered(pairs + [Ends(i, j)])
  {
    var pairs' := pairs + [Ends(i, j)];
    forall k, l | 0 <= k < l < |pairs'|
      ensures Earlier(pairs'[k], pairs'[l])
    {
      if l == |pairs| {
        assert pairs'[k] in pairs;
      } else {
        assert pairs'[k] == pairs[k] && pairs'[l] == pairs[l];
      }
    }
  }

  /** Once the outer loop has passed n - 1, every chosen pair is in the list. */
  lemma ListedAll(atoms: seq<ShellAtom>, n: int, pairs: seq<Ends>, i: int)
    requires Listed(atoms, n, pairs, i, 0) && i >= n - 1
    ensures forall p :: p in pairs <==> Chosen(atoms, n, p.start, p.end)
  {
  }

  /** choixSommets: every pair of border atoms of different groups, each pair once with the
      smaller index first, in the order of the loops. The loops run over the indices below
      SHL_nbAtom, the number of used atoms, not over every slot. */
  method ChoixSommets(atoms: seq<ShellAtom>) returns (pairs: seq<Ends>)
    requires ListsInRange(atoms) && UsedInRange(atoms)
    ensures forall p :: p in pairs <==> Chosen(atoms, AtomCount(atoms), p.start, p.end)
    ensures forall k, l :: 0 <= k < l < |pairs| ==> Earlier(pairs[k], pairs[l])
  {
    var n: int := AtomCount(atoms);
    AtomCountBound(atoms);
    pairs := [];
    var i := 0;
    while i < n - 1
      invariant 0 <= i && (n >= 1 ==> i <= n - 1)
      invariant Listed(atoms, n, pairs, i, 0) && Ordered(pairs)
    {
      var bi := BordureCheck(atoms, i);
      if bi == 1 {
        ListedEnter(atoms, n, pairs, i);
        var j := i + 1;
        while j < n
          invariant i + 1 <= j <= n
          invariant Listed(atoms, n, pairs, i, j) && Ordered(pairs)
        {
          var bj := BordureCheck(atoms, j);
          ghost var chosen := bj == 1 && !Linked(atoms, i, j);
          ListedStep(atoms, n, pairs, i, j, chosen);
          if bj == 1 {
            var e := ExisteChemin(atoms, i, j);
            if e == 0 {
              OrderedStep(atoms, n, pairs, i, j);
              pairs := pairs + [Ends(i, j)];
            }
          }
          j := j + 1;
        }
        ListedLeave(atoms, n, pairs, i, j);
      } else {
        ListedLeave(atoms, n, pairs, i, 0);
      }
      i := i + 1;
    }
    ListedAll(atoms, n, pairs, i);
  }

  /*********************************************************************************************
   * initMocAtt
   *********************************************************************************************/

  /** initMocAtt: the queue of cages to process holds cage 0 alone, when there is one; every
      other cage is deleted and the array of cages is emptied. */
  method InitMocAtt(m: Mains.Main) returns (queue: seq<Shell>)
    modifies m
    ensures queue == if |old(m.mocs)| > 0 && old(m.mocs[0]) != null then [old(m.mocs[0])] else []
    ensures m.mocs == []
    ensures m.substrat == old(m.substrat) && m.envelope == old(m.envelope) && m.envarom == old(m.envarom)
  {
    queue := [];
    var i := 0;
    while i < |m.mocs|
      invariant 0 <= i <= |m.mocs| && m.mocs == old(m.mocs)
      invariant queue == if i > 0 && m.mocs[0] != null then [m.mocs[0]] else []
    {
      if m.mocs[i] != null {
        if i == 0 {
          queue := queue + [m.mocs[i]];
        }
      }
      i := i + 1;
    }
    m.mocs := [];
  }

  /*********************************************************************************************
   * The recursion of genererChemin
   *********************************************************************************************/

  /** What genererChemin is given about the geometry of a cage C (a cage together with the
      vertex the path continues from): the distance tests that stop it at once, the cages one
      motif insertion produces (insererMotif), the number of used atoms, whether the new vertex
      is near the arrival atom, and the cage with the path closed to the arrival atom. */
  datatype Geometry<!C> = Geometry(crowded: C -> bool, insert: (C, int) -> seq<C>, size: C -> nat,
                                   near: C -> bool, close: C -> C)

  /** Every insertion adds atoms. */
  ghost predicate Grows<C(!new)>(g: Geometry<C>)
  {
    forall c, i, k :: 0 <= k < |g.insert(c, i)| ==> g.size(g.insert(c, i)[k]) > g.size(c)
  }

  /** The number of ring motifs (motif 4) in a sequence of inserted motifs. */
  function Rings(path: seq<int>): (n: nat)
    ensures n <= |path|
  {
    if path == [] then 0
    else Rings(path[..|path| - 1]) + (if path[|path| - 1] == 4 then 1 else 0)
  }

  /** The cage e closed into q ends a path p that extends path: e is near the arrival atom and
      within the size budget, the path holds at least one ring, only motifs 2 and 4 were
      inserted, and every cage the path was extended from held fewer than three rings. */
  ghost predicate Queued<C>(g: Geometry<C>, tailleMax: int, tailleMocDep: int, path: seq<int>,
                             q: C, e: C, p: seq<int>)
  {
    q == g.close(e) && g.near(e) && g.size(e) - tailleMocDep <= tailleMax &&
    |p| > |path| && p[..|path|] == path && Rings(p) > 0 &&
    (forall t :: |path| < t < |p| ==> Rings(p[..t]) < 3) &&
    (forall t :: |path| <= t < |p| ==> p[t] == 2 || p[t] == 4)
  }

  /** A path queued from a cage one motif further along is queued from this one too. */
  lemma QueuedLift<C>(g: Geometry<C>, tailleMax: int, tailleMocDep: int, path: seq<int>, i: int,
                      q: C, e: C, p: seq<int>)
    requires Queued(g, tailleMax, tailleMocDep, path + [i], q, e, p)
    requires (i == 2 || i == 4) && Rings(path + [i]) < 3
    ensures Queued(g, tailleMax, tailleMocDep, path, q, e, p)
  {
    var path' := path + [i];
    assert p[..|path'|] == path';
    assert p[..|path|] == path' [..|path|] == path;
    assert p[|path|] == i;
    forall t | |path| < t < |p|
      ensures Rings(p[..t]) < 3
    {
      if t == |path'| {
        assert p[..t] == path';
      }
    }
  }

  /** Every cage of queued is queued, with its end in ends and its path in paths. */
  ghost predicate AllQueued<C>(g: Geometry<C>, tailleMax: int, tailleMocDep: int, path: seq<int>,
                               queued: seq<C>, ends: seq<C>, paths: seq<seq<int>>)
  {
    |ends| == |queued| && |paths| == |queued| &&
    forall k :: 0 <= k < |queued| ==> Queued(g, tailleMax, tailleMocDep, path, queued[k], ends[k], paths[k])
  }

  /** The cages queued from one motif further along are queued from this cage too. */
  lemma AllQueuedLift<C>(g: Geometry<C>, tailleMax: int, tailleMocDep: int, path: seq<int>, i: int,
                         q: seq<C>, e: seq<C>, p: seq<seq<int>>)
    requires AllQueued(g, tailleMax, tailleMocDep, path + [i], q, e, p)
    requires (i == 2 || i == 4) && Rings(path + [i]) < 3
    ensures AllQueued(g, tailleMax, tailleMocDep, path, q, e, p)
  {
    forall k | 0 <= k < |q|
      ensures Queued(g, tailleMax, tailleMocDep, path, q[k], e[k], p[k])
    {
      QueuedLift(g, tailleMax, tailleMocDep, path, i, q[k], e[k], p[k]);
    }
  }

  /** Two lists of queued cages put one after the other. */
  lemma AllQueuedConcat<C>(g: Geometry<C>, tailleMax: int, tailleMocDep: int, path: seq<int>,
                           q1: seq<C>, e1: seq<C>, p1: seq<seq<int>>, q2: seq<C>, e2: seq<C>, p2: seq<seq<int>>)
    requires AllQueued(g, tailleMax, tailleMocDep, path, q1, e1, p1)
    requires AllQueued(g, tailleMax, tailleMocDep, path, q2, e2, p2)
    ensures AllQueued(g, tailleMax, tailleMocDep, path, q1 + q2, e1 + e2, p1 + p2)
  {
    forall k | 0 <= k < |q1 + q2|
      ensures Queued(g, tailleMax, tailleMocDep, path, (q1 + q2)[k], (e1 + e2)[k], (p1 + p2)[k])
    {
      if k >= |q1| {
        var k' := k - |q1|;
        assert (q1 + q2)[k] == q2[k'] && (e1 + e2)[k] == e2[k'] && (p1 + p2)[k] == p2[k'];
        assert Queued(g, tailleMax, tailleMocDep, path, q2[k'], e2[k'], p2[k']);
      } else {
        assert Queued(g, tailleMax, tailleMocDep, path, q1[k], e1[k], p1[k]);
      }
    }
  }

  /** The cage x, produced by inserting motif i into the cage being extended, is closed at once:
      i is 2 or 4, x is within the size budget and near the arrival atom, and the ring counter
      nb4 the cage was reached with is positive or the motif is a ring. */
  ghost predicate Direct<C>(g: Geometry<C>, tailleMax: int, tailleMocDep: int, nb4: int, i: int, x: C)
  {
    (i == 2 || i == 4) && g.size(x) - tailleMocDep <= tailleMax && g.near(x) && (i == 4 || nb4 > 0)
  }

  /** The recursion of genererChemin. The motifs tried are 2 and then 4 (the loop skips 3). The
      counters are updated for every cage the insertion produced, so the ring counter also
      counts the earlier solutions of the same insertion: it is never below the number of rings
      on the path, and is 0 exactly when the path holds none. A cage is closed when it is within
      the size budget, near the arrival atom and the ring counter is positive; it is extended
      when it is within the budget, not near, and the counters are below 5 and 3. The ghost
      path is the sequence of motifs inserted so far. */
  method GenererChemin<C(!new)>(g: Geometry<C>, moc: C, nbMotif3: int, nbMotif4: int, tailleMax: int,
                          tailleMocDep: int, ghost path: seq<int>)
    returns (queued: seq<C>, ghost ends: seq<C>, ghost paths: seq<seq<int>>)
    requires Grows(g)
    requires Rings(path) <= nbMotif4 && (nbMotif4 == 0 <==> Rings(path) == 0)
    decreases if g.size(moc) <= tailleMax + tailleMocDep then tailleMax + tailleMocDep - g.size(moc) + 1 else 0
    ensures |ends| == |queued| && |paths| == |queued|
    ensures g.crowded(moc) ==> queued == []
    ensures forall k :: 0 <= k < |queued| ==> Queued(g, tailleMax, tailleMocDep, path, queued[k], ends[k], paths[k])
    ensures !g.crowded(moc) ==> forall i, x :: x in g.insert(moc, i) && Direct(g, tailleMax, tailleMocDep, nbMotif4, i, x) ==>
      g.close(x) in queued
  {
    queued, ends, paths := [], [], [];
    if g.crowded(moc) {
      return;
    }
    var nb3, nb4 := nbMotif3, nbMotif4;
    var i := 2;
    while i < NB_MOTIF
      invariant i == 2 || i == 3 || i == 5
      invariant nb4 >= nbMotif4 && (i == 2 ==> nb4 == nbMotif4)
      invariant AllQueued(g, tailleMax, tailleMocDep, path, queued, ends, paths)
      invariant forall i', x :: i' < i && x in g.insert(moc, i') && Direct(g, tailleMax, tailleMocDep, nbMotif4, i', x) ==>
        g.close(x) in queued
    {
      if i == 3 {
        i := i + 1;
      }
      var cands := g.insert(moc, i);
      var c := 0;
      while c < |cands|
        invariant 0 <= c <= |cands|
        invariant nb4 >= nbMotif4 && (i == 2 ==> nb4 == nbMotif4)
        invariant AllQueued(g, tailleMax, tailleMocDep, path, queued, ends, paths)
        invariant cands == g.insert(moc, i) && (i == 2 || i == 4)
        invariant forall i', x :: i' < i && x in g.insert(moc, i') && Direct(g, tailleMax, tailleMocDep, nbMotif4, i', x) ==>
          g.close(x) in queued
        invariant forall k :: 0 <= k < c && Direct(g, tailleMax, tailleMocDep, nbMotif4, i, cands[k]) ==>
          g.close(cands[k]) in queued
      {
        var cand := cands[c];
        if i == 3 {
          nb3 := nb3 + 1;
        } else {
          nb3 := 0;
        }
        if i == 4 {
          nb4 := nb4 + 1;
        }
        ghost var path' := path + [i];
        assert path'[..|path|] == path;
        assert Rings(path') <= nb4 && (nb4 == 0 <==> Rings(path') == 0);
        if tailleMax >= g.size(cand) - tailleMocDep {
          if g.near(cand) {
            if nb4 > 0 {
              assert Queued(g, tailleMax, tailleMocDep, path, g.close(cand), cand, path');
              AllQueuedConcat(g, tailleMax, tailleMocDep, path, queued, ends, paths, [g.close(cand)], [cand], [path']);
              queued, ends, paths := queued + [g.close(cand)], ends + [cand], paths + [path'];
            }
          } else if nb3 < 5 && nb4 < 3 {
            var q, e, p := GenererChemin(g, cand, nb3, nb4, tailleMax, tailleMocDep, path');
            AllQueuedLift(g, tailleMax, tailleMocDep, path, i, q, e, p);
            AllQueuedConcat(g, tailleMax, tailleMocDep, path, queued, ends, paths, q, e, p);
            queued, ends, paths := queued + q, ends + e, paths + p;
          }
        }
        c := c + 1;
      }
      i := i + 1;
    }
  }
}
