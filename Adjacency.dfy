/**
 * Neighbour lists as a whole. Molecules and shells keep one IdLists buffer per atom, and an
 * edge between atoms a and b is stored as b in the buffer of a and a in the buffer of b. This
 * module describes edge insertion and removal on the sequence of buffers and proves that both
 * keep the buffers consistent: packed, and describing a symmetric simple graph (Degrees.Simple)
 * on the atom indices.
 */
module Adjacency {
  import opened Constants
  import opened IdLists
  import opened Degrees
  import opened Graphs

  /** The ids each buffer holds, as a scan up to its first free slot sees them. */
  function Neighbourhoods(ls: seq<seq<int>>): (r: seq<seq<int>>)
    ensures |r| == |ls| && forall i :: 0 <= i < |ls| ==> r[i] == Ids(ls[i])
  {
    seq(|ls|, i requires 0 <= i < |ls| => Ids(ls[i]))
  }

  /** Packed buffers describing a symmetric simple graph on the indices. */
  ghost predicate Consistent(ls: seq<seq<int>>)
  {
    (forall i :: 0 <= i < |ls| ==> Packed(ls[i])) && Simple(Neighbourhoods(ls))
  }

  /** Buffer k lists y. */
  ghost predicate Holds(ls: seq<seq<int>>, k: int, y: int)
  {
    0 <= k < |ls| && y in Ids(ls[k])
  }

  /** The buffers after adding the edge a-b: both must be indices and distinct, otherwise
      nothing changes. */
  function Joined(ls: seq<seq<int>>, a: int, b: int): seq<seq<int>>
  {
    if 0 <= a < |ls| && 0 <= b < |ls| && a != b then
      var l := ls[a := Added(ls[a], b)];
      l[b := Added(l[b], a)]
    else ls
  }

  /** The buffers after removing the edge a-b, both being indices. */
  function Separated(ls: seq<seq<int>>, a: nat, b: nat): seq<seq<int>>
    requires a < |ls| && b < |ls|
  {
    var l := ls[a := Removed(ls[a], b)];
    l[b := Removed(l[b], a)]
  }

  /** The buffers once atom id is removed: every other buffer loses id, and the buffer of id is
      replaced by an empty one. */
  function Isolated(ls: seq<seq<int>>, id: nat): seq<seq<int>>
  {
    seq(|ls|, k requires 0 <= k < |ls| => if k == id then [] else Removed(ls[k], id))
  }

  /*********************************************************************************************
   * Properties
   *********************************************************************************************/

  /** The change Joined makes to one buffer: b joins the buffer of a and a the buffer of b,
      without duplicates. */
  lemma JoinedRow(ls: seq<seq<int>>, a: nat, b: nat, k: nat)
    requires a < |ls| && b < |ls| && a != b && k < |ls|
    requires Packed(ls[k]) && NoDup(Ids(ls[k]))
    ensures var r := Joined(ls, a, b);
      |r| == |ls| && Packed(r[k]) && NoDup(Ids(r[k])) &&
      forall y :: y in Ids(r[k]) <==> y in Ids(ls[k]) || (k == a && y == b) || (k == b && y == a)
  {
    if k == a {
      AddedIds(ls[k], b);
      AddedNoDup(ls[k], b);
    } else if k == b {
      AddedIds(ls[k], a);
      AddedNoDup(ls[k], a);
    }
  }

  /** Adding an edge between two distinct atoms keeps the buffers consistent, adds exactly the
      two directions of the edge and nothing else. */
  lemma JoinedConsistent(ls: seq<seq<int>>, a: nat, b: nat)
    requires Consistent(ls) && a < |ls| && b < |ls| && a != b
    ensures var r := Joined(ls, a, b);
      Consistent(r) && |r| == |ls| &&
      forall k, y :: Holds(r, k, y) <==> Holds(ls, k, y) || (k == a && y == b) || (k == b && y == a)
  {
    var r := Joined(ls, a, b);
    var A, R := Neighbourhoods(ls), Neighbourhoods(r);
    forall k | 0 <= k < |ls|
      ensures Packed(r[k]) && NoDup(R[k])
      ensures forall y :: y in R[k] <==> y in A[k] || (k == a && y == b) || (k == b && y == a)
    {
      assert RowOk(A, k);
      JoinedRow(ls, a, b, k);
    }
    forall k | 0 <= k < |R|
      ensures RowOk(R, k)
    {
      assert RowOk(A, k);
      forall x | x in R[k]
        ensures 0 <= x < |R| && x != k && k in R[x]
      {
        if x in A[k] {
          assert RowOk(A, x);
        }
      }
    }
  }

  /** The change Separated makes to one buffer. */
  lemma SeparatedRow(ls: seq<seq<int>>, a: nat, b: nat, k: nat)
    requires a < |ls| && b < |ls| && k < |ls|
    requires Packed(ls[k]) && NoDup(Ids(ls[k]))
    ensures var r := Separated(ls, a, b);
      |r| == |ls| && Packed(r[k]) && NoDup(Ids(r[k])) &&
      forall y :: y in Ids(r[k]) <==> y in Ids(ls[k]) && !(k == a && y == b) && !(k == b && y == a)
  {
    var s := ls[k];
    if k == a {
      RemovedIds(s, b);
      DeleteFirstFacts(Ids(s), b);
      if k == b {
        RemovedIds(Removed(s, b), a);
        DeleteFirstFacts(Ids(Removed(s, b)), a);
      }
    } else if k == b {
      RemovedIds(s, a);
      DeleteFirstFacts(Ids(s), a);
    }
  }

  /** Removing the edge a-b keeps the buffers consistent and removes exactly its two
      directions. */
  lemma SeparatedConsistent(ls: seq<seq<int>>, a: nat, b: nat)
    requires Consistent(ls) && a < |ls| && b < |ls|
    ensures var r := Separated(ls, a, b);
      Consistent(r) && |r| == |ls| &&
      forall k, y :: Holds(r, k, y) <==> Holds(ls, k, y) && !(k == a && y == b) && !(k == b && y == a)
  {
    var r := Separated(ls, a, b);
    var A, R := Neighbourhoods(ls), Neighbourhoods(r);
    forall k | 0 <= k < |ls|
      ensures Packed(r[k]) && NoDup(R[k])
      ensures forall y :: y in R[k] <==> y in A[k] && !(k == a && y == b) && !(k == b && y == a)
    {
      assert RowOk(A, k);
      SeparatedRow(ls, a, b, k);
    }
    forall k | 0 <= k < |R|
      ensures RowOk(R, k)
    {
      assert RowOk(A, k);
      forall x | x in R[k]
        ensures 0 <= x < |R| && x != k && k in R[x]
      {
        assert RowOk(A, x);
      }
    }
  }

  /** Removing atom id keeps the buffers consistent and drops exactly the edges at id. */
  lemma IsolatedConsistent(ls: seq<seq<int>>, id: nat)
    requires Consistent(ls) && id < |ls|
    ensures var r := Isolated(ls, id);
      Consistent(r) && |r| == |ls| && r[id] == [] &&
      forall k, y :: Holds(r, k, y) <==> Holds(ls, k, y) && k != id && y != id
  {
    var r := Isolated(ls, id);
    var A, R := Neighbourhoods(ls), Neighbourhoods(r);
    forall k | 0 <= k < |ls|
      ensures Packed(r[k]) && NoDup(R[k])
      ensures forall y :: y in R[k] <==> y in A[k] && k != id && y != id
    {
      assert RowOk(A, k);
      if k != id {
        RemovedIds(ls[k], id);
        DeleteFirstFacts(Ids(ls[k]), id);
      } else {
        assert Ids([]) == [];
      }
    }
    forall k | 0 <= k < |R|
      ensures RowOk(R, k)
    {
      assert RowOk(A, k);
      forall x | x in R[k]
        ensures 0 <= x < |R| && x != k && k in R[x]
      {
        assert RowOk(A, x);
      }
    }
  }

  /** In consistent buffers, a buffer that does not list id is left alone by its removal. */
  lemma IsolatedKeeps(ls: seq<seq<int>>, id: nat, k: nat)
    requires k < |ls| && k != id && id !in Ids(ls[k])
    ensures Isolated(ls, id)[k] == ls[k]
  {
    RemovedAbsent(ls[k], id);
  }
}
