/**
 * The singly linked lists of src/structureLst.c: the list of atom pairs to connect (Pair_t, PR_*),
 * the list of points (List_s, LSTs_*) and the stack of cages (mStack_t, mSTK_*).
 * A list is modelled by the sequence of its nodes from the head; an object of one of the classes
 * stands for the caller's head pointer, so that splicing through `next` becomes a sequence update.
 */
module LinkedLists {
  import opened Points

  /** A node with its payload and the distance it is ordered by. */
  datatype Ranked<T> = Ranked(item: T, distance: real)

  /** The payload of a Pair_t node: the indices of the two atoms of the pair. */
  datatype Ends = Ends(start: int, end: int)

  /** Distances never decrease from the head on. */
  predicate Ascending<T>(s: seq<Ranked<T>>)
  {
    forall i, j :: 0 <= i < j < |s| ==> s[i].distance <= s[j].distance
  }

  /** Where the walk of the in-order insertions stops: at the first node whose distance is not
      below d, or at the end of the list. */
  function InsertionPoint<T>(s: seq<Ranked<T>>, d: real): (k: nat)
    ensures k <= |s|
    ensures forall j :: 0 <= j < k ==> s[j].distance < d
    ensures k < |s| ==> s[k].distance >= d
  {
    if s == [] || s[0].distance >= d then 0 else 1 + InsertionPoint(s[1..], d)
  }

  /** The list after an in-order insertion of e. */
  function InsertedInOrder<T>(s: seq<Ranked<T>>, e: Ranked<T>): seq<Ranked<T>>
  {
    var k := InsertionPoint(s, e.distance);
    s[..k] + [e] + s[k..]
  }

  /** An in-order insertion keeps an ascending list ascending. */
  lemma InsertKeepsAscending<T>(s: seq<Ranked<T>>, e: Ranked<T>)
    requires Ascending(s)
    ensures Ascending(InsertedInOrder(s, e))
  {
    var k := InsertionPoint(s, e.distance);
    var r := InsertedInOrder(s, e);
    assert forall j :: 0 <= j < |r| ==> r[j] == (if j < k then s[j] else if j == k then e else s[j - 1]);
    forall j | k < j < |r|
      ensures e.distance <= r[j].distance
    {
      assert s[k].distance <= s[j - 1].distance;
    }
  }

  /** An in-order insertion adds exactly e: no node is lost or duplicated. */
  lemma InsertIsPermutation<T>(s: seq<Ranked<T>>, e: Ranked<T>)
    ensures multiset(InsertedInOrder(s, e)) == multiset(s) + multiset{e}
    ensures |InsertedInOrder(s, e)| == |s| + 1
  {
    var k := InsertionPoint(s, e.distance);
    assert s == s[..k] + s[k..];
  }

  /** The new node goes in front of every node whose distance is not below its own, and after
      the others; the nodes keep their relative order. */
  lemma InsertPlacesNode<T>(s: seq<Ranked<T>>, e: Ranked<T>)
    requires Ascending(s)
    ensures var k := InsertionPoint(s, e.distance);
      InsertedInOrder(s, e)[k] == e &&
      (forall j :: 0 <= j < |s| ==> (s[j].distance < e.distance <==> j < k))
  {
    var k := InsertionPoint(s, e.distance);
    forall j | k <= j < |s|
      ensures s[j].distance >= e.distance
    {
      assert s[k].distance <= s[j].distance;
    }
  }

  /** The caller's list after PR_removeFirst as written: the function only reassigns its own
      copy of the head pointer, so the caller still holds the whole list, head node included
      (that node has been freed). */
  function RemoveFirstAsWritten<T>(s: seq<Ranked<T>>): seq<Ranked<T>>
  {
    s
  }

  /** On the list [a, b], PR_removeFirst as written leaves the caller's head pointing to a,
      whose node it has just freed, where removing the first node should leave [b]. */
  lemma RemoveFirstKeepsHead(a: Ranked<Ends>, b: Ranked<Ends>)
    ensures RemoveFirstAsWritten([a, b]) == [a, b]
    ensures RemoveFirstAsWritten([a, b]) != [a, b][1..]
  {
    assert |[a, b][1..]| == 1;
  }

  /** Index of the first node holding position p, or |s| when there is none. */
  function FirstAt(s: seq<Ranked<Point>>, p: Point): (k: nat)
    ensures k <= |s|
    ensures forall j :: 0 <= j < k ==> s[j].item != p
    ensures k < |s| ==> s[k].item == p
  {
    if s == [] then 0 else if s[0].item == p then 0 else 1 + FirstAt(s[1..], p)
  }

  /** The list after LSTs_removeElement(p): the first node at position p unlinked, if any. */
  function RemovedPoint(s: seq<Ranked<Point>>, p: Point): seq<Ranked<Point>>
  {
    var k := FirstAt(s, p);
    if k == |s| then s else s[..k] + s[k + 1..]
  }

  /** LSTs_removeElement leaves a list without p unchanged; otherwise it drops exactly one node
      at position p and keeps the others in order, so an ascending list stays ascending. */
  lemma RemovedPointFacts(s: seq<Ranked<Point>>, p: Point)
    ensures (forall j :: 0 <= j < |s| ==> s[j].item != p) ==> RemovedPoint(s, p) == s
    ensures (exists j :: 0 <= j < |s| && s[j].item == p) ==>
      |RemovedPoint(s, p)| == |s| - 1 &&
      multiset(RemovedPoint(s, p)) + multiset{s[FirstAt(s, p)]} == multiset(s) &&
      s[FirstAt(s, p)].item == p
    ensures Ascending(s) ==> Ascending(RemovedPoint(s, p))
  {
    if FirstAt(s, p) < |s| {
      RemovedPointCount(s, p);
      if Ascending(s) {
        RemovedPointAscending(s, p);
      }
    }
  }

  /** Unlinking the node at FirstAt(s, p) takes exactly that node out. */
  lemma RemovedPointCount(s: seq<Ranked<Point>>, p: Point)
    requires FirstAt(s, p) < |s|
    ensures |RemovedPoint(s, p)| == |s| - 1
    ensures multiset(RemovedPoint(s, p)) + multiset{s[FirstAt(s, p)]} == multiset(s)
  {
    DropOne(s, FirstAt(s, p));
  }

  /** Cutting the element at k out of a sequence takes exactly that element out. */
  lemma DropOne<T>(s: seq<T>, k: int)
    requires 0 <= k < |s|
    ensures |s[..k] + s[k + 1..]| == |s| - 1
    ensures multiset(s[..k] + s[k + 1..]) + multiset{s[k]} == multiset(s)
  {
    assert s == s[..k] + [s[k]] + s[k + 1..];
  }

  /** Unlinking one node keeps the others in order. */
  lemma RemovedPointAscending(s: seq<Ranked<Point>>, p: Point)
    requires FirstAt(s, p) < |s| && Ascending(s)
    ensures Ascending(RemovedPoint(s, p))
  {
    var k := FirstAt(s, p);
    var r := RemovedPoint(s, p);
    assert forall j :: 0 <= j < |r| ==> r[j] == (if j < k then s[j] else s[j + 1]);
  }

  /** A Pair_t list, seen through the caller's head pointer. */
  class PairList {
    var pairs: seq<Ranked<Ends>>

    /** PR_init: the empty list. */
    constructor ()
      ensures pairs == []
    {
      pairs := [];
    }

    /** PR_addElement: a new head node; its distance is whatever the
        fresh node held, here the parameter garbage. */
    method AddElement(start: int, end: int, garbage: real)
      modifies this
      ensures pairs == [Ranked(Ends(start, end), garbage)] + old(pairs)
    {
      pairs := [Ranked(Ends(start, end), garbage)] + pairs;
    }

    /** PR_addElementInOrder: the pair, with its obstacle-avoiding
        distance dist, goes before the first node whose distance is not below dist. */
    method AddElementInOrder(start: int, end: int, dist: real)
      modifies this
      ensures pairs == InsertedInOrder(old(pairs), Ranked(Ends(start, end), dist))
      ensures Ascending(old(pairs)) ==> Ascending(pairs)
      ensures multiset(pairs) == multiset(old(pairs)) + multiset{Ranked(Ends(start, end), dist)}
    {
      var i := 0;
      while i < |pairs| && pairs[i].distance < dist
        invariant i <= |pairs|
        invariant forall j :: 0 <= j < i ==> pairs[j].distance < dist
      {
        i := i + 1;
      }
      var e := Ranked(Ends(start, end), dist);
      assert i == InsertionPoint(pairs, dist) by {
        InsertionPointUnique(pairs, dist, i);
      }
      if Ascending(pairs) {
        InsertKeepsAscending(pairs, e);
      }
      InsertIsPermutation(pairs, e);
      pairs := pairs[..i] + [e] + pairs[i..];
    }

    /** PR_removeFirst as it is meant to work: the head node is unlinked; an empty list only
        draws an error message. */
    method RemoveFirst()
      modifies this
      ensures old(pairs) != [] ==> pairs == old(pairs)[1..]
      ensures old(pairs) == [] ==> pairs == []
    {
      if pairs != [] {
        pairs := pairs[1..];
      }
    }
  }

  /** The walk stops at the only index that satisfies the two halves of its loop condition. */
  lemma InsertionPointUnique<T>(s: seq<Ranked<T>>, d: real, i: nat)
    requires i <= |s|
    requires forall j :: 0 <= j < i ==> s[j].distance < d
    requires i < |s| ==> s[i].distance >= d
    ensures i == InsertionPoint(s, d)
  {
  }

  /** A List_s of points, seen through its `first` field. */
  class PointList {
    var entries: seq<Ranked<Point>>

    /** LSTs_init: the empty list. */
    constructor ()
      ensures entries == []
    {
      entries := [];
    }

    /** LSTs_addElement: a new head node at position sommet; its distance is whatever the fresh
        node held, here the parameter garbage. */
    method AddElement(sommet: Point, garbage: real)
      modifies this
      ensures entries == [Ranked(sommet, garbage)] + old(entries)
    {
      entries := [Ranked(sommet, garbage)] + entries;
    }

    /** LSTs_addElementInOrder: the node for startPos, with its obstacle-avoiding distance dist
        to the goal, goes before the first node whose distance is not below dist. */
    method AddElementInOrder(startPos: Point, dist: real)
      modifies this
      ensures entries == InsertedInOrder(old(entries), Ranked(startPos, dist))
      ensures Ascending(old(entries)) ==> Ascending(entries)
      ensures multiset(entries) == multiset(old(entries)) + multiset{Ranked(startPos, dist)}
    {
      var i := 0;
      while i < |entries| && entries[i].distance < dist
        invariant i <= |entries|
        invariant forall j :: 0 <= j < i ==> entries[j].distance < dist
      {
        i := i + 1;
      }
      var e := Ranked(startPos, dist);
      InsertionPointUnique(entries, dist, i);
      if Ascending(entries) {
        InsertKeepsAscending(entries, e);
      }
      InsertIsPermutation(entries, e);
      entries := entries[..i] + [e] + entries[i..];
    }

    /** LSTs_removeFirst: the head node is unlinked; the list must not be empty. */
    method RemoveFirst()
      requires entries != []
      modifies this
      ensures entries == old(entries)[1..]
    {
      entries := entries[1..];
    }

    /** LSTs_removeElement: the first node at position p, if any, is unlinked. */
    method RemoveElement(p: Point)
      modifies this
      ensures entries == RemovedPoint(old(entries), p)
    {
      if entries == [] {
        return;
      }
      if entries[0].item == p {
        RemoveFirst();
        return;
      }
      var i := 0;
      ghost var s := entries;
      while i + 1 < |entries| && entries[i + 1].item != p
        invariant entries == s && i + 1 <= |s|
        invariant forall j :: 0 <= j <= i ==> s[j].item != p
      {
        i := i + 1;
      }
      if i + 1 < |entries| {
        FirstAtUnique(s, p, i + 1);
        entries := entries[..i + 1] + entries[i + 2..];
      } else {
        FirstAtUnique(s, p, |s|);
      }
    }
  }

  /** The first node at position p is the only index before which no node is at p. */
  lemma FirstAtUnique(s: seq<Ranked<Point>>, p: Point, i: nat)
    requires i <= |s|
    requires forall j :: 0 <= j < i ==> s[j].item != p
    requires i < |s| ==> s[i].item == p
    ensures i == FirstAt(s, p)
  {
  }

  /** An mStack_t of cages, seen through its `first` field. */
  class MocStack<T> {
    var mocs: seq<T>

    /** mSTK_init: the empty stack. */
    constructor ()
      ensures mocs == []
    {
      mocs := [];
    }

    /** mSTK_addElement: moc goes on top. */
    method AddElement(moc: T)
      modifies this
      ensures mocs == [moc] + old(mocs)
    {
      mocs := [moc] + mocs;
    }

    /** mSTK_removeFirst: the top cage is taken off (and deleted); the stack must not be empty. */
    method RemoveFirst()
      requires mocs != []
      modifies this
      ensures mocs == old(mocs)[1..]
    {
      mocs := mocs[1..];
    }

    /** mSTK_delete: cages are taken off until the stack is empty. */
    method Delete()
      modifies this
      ensures mocs == []
    {
      while mocs != []
        decreases |mocs|
      {
        RemoveFirst();
      }
    }
  }
}
