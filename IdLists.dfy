/**
 * The integer list List_t of src/structureLst.c: an int buffer in which FREE (-1) marks a free
 * slot. Adding puts an absent id into the first free slot, growing the buffer by REALLOCSIZE
 * slots when there is none; removing shifts the rest of the list left by one.
 *
 * The functions below describe each operation on the buffer's contents; the class IdList carries
 * the source's loops and is proved against them.
 */
module IdLists {
  import opened Constants

  /*********************************************************************************************
   * Specification of the buffer operations
   *********************************************************************************************/

  /** No stored id follows a free slot. */
  ghost predicate Packed(s: seq<int>)
  {
    forall i, j :: 0 <= i < j < |s| && s[i] == FREE ==> s[j] == FREE
  }

  /** The first c slots hold ids and every later slot is free. */
  ghost predicate Layout(s: seq<int>, c: nat)
  {
    c <= |s| &&
    (forall k :: 0 <= k < c ==> s[k] != FREE) &&
    (forall k :: c <= k < |s| ==> s[k] == FREE)
  }

  /** Index of the first free slot, |s| when there is none (the scan of LST_getIndiceFree). */
  function FirstFree(s: seq<int>): (r: nat)
    ensures r <= |s|
    ensures r < |s| ==> s[r] == FREE
    ensures forall k :: 0 <= k < r ==> s[k] != FREE
  {
    if s == [] || s[0] == FREE then 0 else 1 + FirstFree(s[1..])
  }

  /** The ids a scan that stops at the first free slot sees, in order. */
  function Ids(s: seq<int>): (r: seq<int>)
    ensures forall k :: 0 <= k < |r| ==> r[k] != FREE
  {
    s[..FirstFree(s)]
  }

  /** Index of id among the slots before the first free one, -1 when absent (LST_getIndice). */
  function IndexOf(s: seq<int>, id: int): (r: int)
    ensures -1 <= r < FirstFree(s)
    ensures r >= 0 ==> s[r] == id && forall k :: 0 <= k < r ==> s[k] != id
    ensures r == -1 <==> id !in Ids(s)
  {
    if s == [] || s[0] == FREE then -1
    else if s[0] == id then 0
    else
      var r := IndexOf(s[1..], id);
      assert Ids(s) == [s[0]] + Ids(s[1..]);
      if r == -1 then -1 else r + 1
  }

  /** The index just after the last non-free slot (LST_nbElements). */
  function UsedLength(s: seq<int>): (r: nat)
    ensures r <= |s|
    ensures r > 0 ==> s[r - 1] != FREE
    ensures forall k :: r <= k < |s| ==> s[k] == FREE
  {
    if s == [] then 0
    else if s[|s| - 1] == FREE then UsedLength(s[..|s| - 1])
    else |s|
  }

  /** The buffer after LST_addAlloc: REALLOCSIZE free slots appended. */
  function Grown(s: seq<int>): seq<int>
  {
    s + seq(REALLOCSIZE, _ => FREE)
  }

  /** The buffer after LST_getIndiceFree: grown only when no slot is free. */
  function WithFreeSlot(s: seq<int>): seq<int>
  {
    if FirstFree(s) < |s| then s else Grown(s)
  }

  /** The buffer after LST_addElement(s, id). */
  function Added(s: seq<int>, id: int): seq<int>
  {
    if IndexOf(s, id) != -1 then s
    else WithFreeSlot(s)[FirstFree(s) := id]
  }

  /** Where the shifting loop of LST_removeElement stops when it starts at i. */
  function StopIndex(s: seq<int>, i: nat): (e: nat)
    requires i < |s|
    ensures i <= e < |s|
    ensures e == |s| - 1 || s[e] == FREE
    ensures forall k :: i <= k < e ==> s[k] != FREE
    decreases |s| - i
  {
    if i == |s| - 1 || s[i] == FREE then i else StopIndex(s, i + 1)
  }

  /** The buffer after LST_removeElement(s, id). */
  function Removed(s: seq<int>, id: int): (r: seq<int>)
    ensures |r| == |s|
  {
    var p := IndexOf(s, id);
    if p == -1 then s
    else
      var e := StopIndex(s, p);
      seq(|s|, k requires 0 <= k < |s| => if p <= k < e then s[k + 1] else if k == e then FREE else s[k])
  }

  /** The buffer of LST_copy(s). */
  function Copied(s: seq<int>): seq<int>
  {
    s[..UsedLength(s)]
  }

  /** Every entry LST_copyWithShift reads is a valid index of the shift table. */
  ghost predicate ShiftableBy(s: seq<int>, shifts: seq<int>)
  {
    forall k :: 0 <= k < UsedLength(s) ==> 0 <= s[k] < |shifts|
  }

  /** The buffer of LST_copyWithShift(s, shifts). */
  function ShiftedCopy(s: seq<int>, shifts: seq<int>): seq<int>
    requires ShiftableBy(s, shifts)
  {
    seq(UsedLength(s), k requires 0 <= k < UsedLength(s) => s[k] - shifts[s[k]])
  }

  /** s after LST_addElement of each of xs in turn. */
  function AddedAll(s: seq<int>, xs: seq<int>): seq<int>
    decreases |xs|
  {
    if xs == [] then s else AddedAll(Added(s, xs[0]), xs[1..])
  }

  /** The buffer LST_addList(l1, l2) returns. */
  function Merged(l1: seq<int>, l2: seq<int>): seq<int>
  {
    AddedAll(Copied(l1), Ids(l2))
  }

  /*********************************************************************************************
   * Reference definitions on plain id sequences
   *********************************************************************************************/

  /** Number of slots holding an id. */
  function CountIds(s: seq<int>): nat
  {
    if s == [] then 0 else (if s[0] == FREE then 0 else 1) + CountIds(s[1..])
  }

  /** xs without its first occurrence of x. */
  function DeleteFirst(xs: seq<int>, x: int): seq<int>
  {
    if xs == [] then []
    else if xs[0] == x then xs[1..]
    else [xs[0]] + DeleteFirst(xs[1..], x)
  }

  /** The elements of xs that are not in seen, each kept at its first occurrence. */
  function NewIds(seen: seq<int>, xs: seq<int>): seq<int>
    decreases |xs|
  {
    if xs == [] then []
    else if xs[0] in seen then NewIds(seen, xs[1..])
    else [xs[0]] + NewIds(seen + [xs[0]], xs[1..])
  }

  ghost predicate NoDup(xs: seq<int>)
  {
    forall i, j :: 0 <= i < j < |xs| ==> xs[i] != xs[j]
  }

  /*********************************************************************************************
   * Properties
   *********************************************************************************************/

  /** A packed buffer is laid out as ids followed by free slots, and conversely. */
  lemma PackedLayout(s: seq<int>)
    ensures Packed(s) <==> Layout(s, FirstFree(s))
  {
  }

  lemma LayoutFirstFree(s: seq<int>, c: nat)
    requires Layout(s, c)
    ensures FirstFree(s) == c && Ids(s) == s[..c] && Packed(s)
  {
    var f := FirstFree(s);
    assert f < |s| ==> s[f] == FREE;
    assert c < |s| ==> s[c] == FREE;
  }

  /** On a packed buffer the number of stored ids is what LST_nbElements returns. */
  lemma {:induction false} CountIdsOfPacked(s: seq<int>)
    requires Packed(s)
    ensures CountIds(s) == FirstFree(s) == UsedLength(s) == |Ids(s)|
  {
    PackedLayout(s);
    if s != [] {
      assert Packed(s[1..]);
      CountIdsOfPacked(s[1..]);
      if s[0] == FREE {
        assert FirstFree(s[1..]) == 0;
      }
    }
  }

  /** An absent id goes into the first free slot of a packed buffer. */
  lemma AddedAbsent(s: seq<int>, id: int)
    requires Packed(s) && id != FREE && id !in Ids(s)
    ensures Layout(Added(s, id), FirstFree(s) + 1)
    ensures Added(s, id)[..FirstFree(s) + 1] == Ids(s) + [id]
  {
    PackedLayout(s);
    var f := FirstFree(s);
    var w := WithFreeSlot(s);
    WithFreeSlotFacts(s);
    assert Layout(w, f);
    assert Added(s, id) == w[f := id];
  }

  /** LST_addElement on a packed buffer: the id is appended unless it is already there. */
  lemma AddedIds(s: seq<int>, id: int)
    requires Packed(s) && id != FREE
    ensures Packed(Added(s, id))
    ensures Ids(Added(s, id)) == if id in Ids(s) then Ids(s) else Ids(s) + [id]
    ensures |Added(s, id)| == if id in Ids(s) || FirstFree(s) < |s| then |s| else |s| + REALLOCSIZE
  {
    if id !in Ids(s) {
      AddedAbsent(s, id);
      LayoutFirstFree(Added(s, id), FirstFree(s) + 1);
      WithFreeSlotFacts(s);
    }
  }

  /** LST_addElement never creates a duplicate. */
  lemma AddedNoDup(s: seq<int>, id: int)
    requires Packed(s) && id != FREE && NoDup(Ids(s))
    ensures NoDup(Ids(Added(s, id)))
  {
    AddedIds(s, id);
  }

  /** The pointwise effect of LST_removeElement on a present id. */
  lemma RemovedAt(s: seq<int>, id: int, k: int)
    requires IndexOf(s, id) != -1 && 0 <= k < |s|
    ensures |Removed(s, id)| == |s|
    ensures var p, e := IndexOf(s, id), StopIndex(s, IndexOf(s, id));
      Removed(s, id)[k] == if p <= k < e then s[k + 1] else if k == e then FREE else s[k]
  {
  }

  /** DeleteFirst removes exactly the first occurrence. */
  lemma {:induction false} DeleteFirstAt(xs: seq<int>, x: int, p: nat)
    requires p < |xs| && xs[p] == x && forall k :: 0 <= k < p ==> xs[k] != x
    ensures DeleteFirst(xs, x) == xs[..p] + xs[p + 1..]
  {
    if p > 0 {
      DeleteFirstAt(xs[1..], x, p - 1);
      assert xs[1..][..p - 1] == xs[1..p];
      assert xs[..p] == [xs[0]] + xs[1..p];
    }
  }

  /** On a packed buffer the shifting loop stops at the first free slot, or at the last slot. */
  lemma StopIndexPacked(s: seq<int>, p: nat)
    requires Layout(s, FirstFree(s)) && p < FirstFree(s)
    ensures StopIndex(s, p) == if FirstFree(s) < |s| then FirstFree(s) else FirstFree(s) - 1
  {
  }

  /** On a packed buffer holding id, LST_removeElement closes the gap and frees one more slot. */
  lemma RemovedPresent(s: seq<int>, id: int)
    requires Packed(s) && IndexOf(s, id) != -1
    ensures var f, p := FirstFree(s), IndexOf(s, id);
      f > 0 && Layout(Removed(s, id), f - 1) && Removed(s, id)[..f - 1] == s[..p] + s[p + 1..f]
  {
    var f, p, r := FirstFree(s), IndexOf(s, id), Removed(s, id);
    forall k {:trigger r[k]} | 0 <= k < |s|
      ensures r[k] == if k < p then s[k] else if k < f - 1 then s[k + 1] else FREE
    {
      RemovedPackedAt(s, id, k);
    }
    RemovedAt(s, id, 0);
    PackedLayout(s);
    ShiftedLayout(s, r, p, f);
  }

  /** Closing the gap at p in a buffer laid out with f ids. */
  lemma ShiftedLayout(s: seq<int>, r: seq<int>, p: nat, f: nat)
    requires Layout(s, f) && p < f && |r| == |s|
    requires forall k {:trigger r[k]} :: 0 <= k < |s| ==> r[k] == if k < p then s[k] else if k < f - 1 then s[k + 1] else FREE
    ensures Layout(r, f - 1) && r[..f - 1] == s[..p] + s[p + 1..f]
  {
    var t := s[..p] + s[p + 1..f];
    assert |t| == f - 1;
    forall k | 0 <= k < f - 1
      ensures r[k] == t[k] && r[k] != FREE
    {
      if k < p {
        assert t[k] == s[k];
      } else {
        assert t[k] == s[k + 1];
      }
    }
    assert r[..f - 1] == t;
  }

  lemma RemovedPackedAt(s: seq<int>, id: int, k: int)
    requires Packed(s) && IndexOf(s, id) != -1 && 0 <= k < |s|
    ensures var f, p := FirstFree(s), IndexOf(s, id);
      Removed(s, id)[k] == if k < p then s[k] else if k < f - 1 then s[k + 1] else FREE
  {
    PackedLayout(s);
    StopIndexPacked(s, IndexOf(s, id));
    RemovedAt(s, id, k);
  }

  /** In a packed buffer, every stored id is seen by the scan. */
  lemma PackedIn(s: seq<int>, x: int)
    requires Packed(s) && x != FREE && x in s
    ensures x in Ids(s)
  {
    var j :| 0 <= j < |s| && s[j] == x;
    assert j < FirstFree(s);
    assert Ids(s)[j] == x;
  }

  /** In a packed buffer whose ids are distinct, an id occurs in no later slot. */
  lemma PackedOnce(s: seq<int>, i: nat)
    requires Packed(s) && NoDup(Ids(s)) && i < FirstFree(s)
    ensures s[i] !in s[i + 1..]
  {
    forall j | i + 1 <= j < |s|
      ensures s[j] != s[i]
    {
      if j < FirstFree(s) {
        assert Ids(s)[i] == s[i] && Ids(s)[j] == s[j];
      }
    }
  }

  /** LST_removeElement on a packed buffer deletes the id's first occurrence, keeps the order of
      the others and leaves the buffer packed and of the same size. */
  lemma RemovedIds(s: seq<int>, id: int)
    requires Packed(s)
    ensures Packed(Removed(s, id)) && |Removed(s, id)| == |s|
    ensures Ids(Removed(s, id)) == DeleteFirst(Ids(s), id)
  {
    if IndexOf(s, id) == -1 {
      DeleteFirstAbsent(Ids(s), id);
    } else {
      RemovedIdsPresent(s, id);
    }
  }

  /** RemovedIds for an id the buffer holds. */
  lemma RemovedIdsPresent(s: seq<int>, id: int)
    requires Packed(s) && IndexOf(s, id) != -1
    ensures Packed(Removed(s, id)) && |Removed(s, id)| == |s|
    ensures Ids(Removed(s, id)) == DeleteFirst(Ids(s), id)
  {
    var p, f := IndexOf(s, id), FirstFree(s);
    RemovedPresent(s, id);
    RemovedAt(s, id, 0);
    LayoutFirstFree(Removed(s, id), f - 1);
    DeleteFirstAt(Ids(s), id, p);
    assert Ids(s)[..p] == s[..p] && Ids(s)[p + 1..] == s[p + 1..f];
  }

  lemma {:induction false} DeleteFirstAbsent(xs: seq<int>, x: int)
    requires x !in xs
    ensures DeleteFirst(xs, x) == xs
  {
    if xs != [] {
      DeleteFirstAbsent(xs[1..], x);
    }
  }

  /** LST_removeElement of an absent id leaves the buffer as it was. */
  lemma RemovedAbsent(s: seq<int>, id: int)
    requires id !in Ids(s)
    ensures Removed(s, id) == s
  {
  }

  /** LST_check is 1 exactly when LST_getIndice finds the id. */
  lemma IndexOfFinds(s: seq<int>, id: int)
    ensures IndexOf(s, id) != -1 <==> id in Ids(s)
    ensures IndexOf(s, id) != -1 ==> Ids(s)[IndexOf(s, id)] == id
  {
  }

  /** LST_getIndiceFree grows by exactly REALLOCSIZE free slots, and only when none is free. */
  lemma WithFreeSlotFacts(s: seq<int>)
    ensures FirstFree(s) < |WithFreeSlot(s)| && WithFreeSlot(s)[FirstFree(s)] == FREE
    ensures WithFreeSlot(s)[..|s|] == s
    ensures |WithFreeSlot(s)| == if FirstFree(s) < |s| then |s| else |s| + REALLOCSIZE
    ensures forall k :: |s| <= k < |WithFreeSlot(s)| ==> WithFreeSlot(s)[k] == FREE
  {
  }

  /** LST_copy of a packed buffer holds exactly its ids, with no free slot. */
  lemma CopiedIds(s: seq<int>)
    requires Packed(s)
    ensures Copied(s) == Ids(s) && FirstFree(Copied(s)) == |Copied(s)|
  {
    CountIdsOfPacked(s);
  }

  /** Adding a sequence of ids one at a time to a packed buffer appends the new ones in order. */
  lemma {:induction false} AddedAllIds(s: seq<int>, xs: seq<int>)
    requires Packed(s) && forall k :: 0 <= k < |xs| ==> xs[k] != FREE
    ensures Packed(AddedAll(s, xs))
    ensures Ids(AddedAll(s, xs)) == Ids(s) + NewIds(Ids(s), xs)
    decreases |xs|
  {
    if xs != [] {
      var x, t := xs[0], Ids(s);
      AddedIds(s, x);
      AddedAllIds(Added(s, x), xs[1..]);
      if x in t {
        assert NewIds(t, xs) == NewIds(t, xs[1..]);
      } else {
        assert Ids(Added(s, x)) == t + [x];
        assert NewIds(t, xs) == [x] + NewIds(t + [x], xs[1..]);
      }
    }
  }

  /** Adding ids that are distinct and new adds all of them, in order. */
  lemma {:induction false} NewIdsFresh(seen: seq<int>, xs: seq<int>)
    requires NoDup(xs) && forall k :: 0 <= k < |xs| ==> xs[k] !in seen
    ensures NewIds(seen, xs) == xs
    decreases |xs|
  {
    if xs != [] {
      assert xs[0] !in seen;
      forall k | 0 <= k < |xs[1..]|
        ensures xs[1..][k] !in seen + [xs[0]]
      {
        assert xs[1..][k] == xs[k + 1] && xs[k + 1] != xs[0];
      }
      NewIdsFresh(seen + [xs[0]], xs[1..]);
      assert [xs[0]] + xs[1..] == xs;
    }
  }

  /** The ids NewIds keeps are those of xs not already seen. */
  lemma {:induction false} NewIdsIn(seen: seq<int>, xs: seq<int>, x: int)
    ensures x in seen + NewIds(seen, xs) <==> x in seen || x in xs
    decreases |xs|
  {
    if xs != [] {
      assert x in xs <==> x == xs[0] || x in xs[1..] by {
        assert xs == [xs[0]] + xs[1..];
      }
      if xs[0] in seen {
        NewIdsIn(seen, xs[1..], x);
      } else {
        var seen' := seen + [xs[0]];
        NewIdsIn(seen', xs[1..], x);
        assert seen + NewIds(seen, xs) == seen' + NewIds(seen', xs[1..]);
      }
    }
  }

  /** LST_addList holds exactly the ids of both lists. */
  lemma MergedIn(l1: seq<int>, l2: seq<int>)
    requires Packed(l1)
    ensures Packed(Merged(l1, l2))
    ensures forall x :: x in Ids(Merged(l1, l2)) <==> x in Ids(l1) || x in Ids(l2)
  {
    MergedIds(l1, l2);
    forall x
      ensures x in Ids(Merged(l1, l2)) <==> x in Ids(l1) || x in Ids(l2)
    {
      NewIdsIn(Ids(l1), Ids(l2), x);
    }
  }

  /** LST_addList returns l1's ids in order followed by those of l2 not already present. */
  lemma MergedIds(l1: seq<int>, l2: seq<int>)
    requires Packed(l1)
    ensures Packed(Merged(l1, l2))
    ensures Ids(Merged(l1, l2)) == Ids(l1) + NewIds(Ids(l1), Ids(l2))
  {
    CopiedIds(l1);
    LayoutFirstFree(Copied(l1), |Copied(l1)|);
    assert Ids(Copied(l1)) == Ids(l1);
    AddedAllIds(Copied(l1), Ids(l2));
  }

  /*********************************************************************************************
   * The list object and its loops
   *********************************************************************************************/

  /** LST_addElement on a packed buffer, as the ids before its first free slot see it: id is
      appended unless it is there already. */
  method AddToPacked(l: IdList, id: int)
    requires Packed(l.elts) && id != FREE
    modifies l
    ensures Packed(l.elts)
    ensures Ids(l.elts) == if id in Ids(old(l.elts)) then Ids(old(l.elts)) else Ids(old(l.elts)) + [id]
  {
    AddedIds(l.elts, id);
    l.AddElement(id);
  }

  class IdList {
    var elts: seq<int>

    /** LST_create: an empty buffer. */
    constructor ()
      ensures elts == []
    {
      elts := [];
    }

    /** LST_addAlloc: append REALLOCSIZE free slots. */
    method AddAlloc()
      modifies this
      ensures elts == Grown(old(elts))
    {
      var n := |elts|;
      elts := elts + seq(REALLOCSIZE, _ => 0);
      for i := 0 to REALLOCSIZE
        invariant |elts| == n + REALLOCSIZE && elts[..n] == old(elts)
        invariant forall k :: n <= k < n + i ==> elts[k] == FREE
      {
        elts := elts[n + i := FREE];
      }
    }

    /** LST_nbElements: scan back from the end over the free slots. */
    method NbElements() returns (cpt: nat)
      ensures cpt <= |elts|
      ensures cpt > 0 ==> elts[cpt - 1] != FREE
      ensures forall k :: cpt <= k < |elts| ==> elts[k] == FREE
      ensures cpt == UsedLength(elts)
    {
      cpt := |elts|;
      while cpt > 0 && elts[cpt - 1] == FREE
        invariant cpt <= |elts|
        invariant forall k :: cpt <= k < |elts| ==> elts[k] == FREE
      {
        cpt := cpt - 1;
      }
    }

    /** LST_getIndiceFree: the first free slot, after growing the buffer when none is free. */
    method GetIndiceFree() returns (i: nat)
      modifies this
      ensures i == FirstFree(old(elts)) && elts == WithFreeSlot(old(elts))
      ensures i < |elts| && elts[i] == FREE
    {
      i := 0;
      while i < |elts|
        invariant i <= |elts| && elts == old(elts)
        invariant forall k :: 0 <= k < i ==> elts[k] != FREE
      {
        if elts[i] == FREE {
          return;
        }
        i := i + 1;
      }
      AddAlloc();
    }

    /** LST_getIndice: scan up to the first free slot for id; -1 when absent. */
    method GetIndice(id: int) returns (r: int)
      ensures -1 <= r < |elts|
      ensures r >= 0 ==> elts[r] == id
      ensures r == -1 <==> id !in Ids(elts)
      ensures r == IndexOf(elts, id)
    {
      var i := 0;
      while i < |elts| && elts[i] != FREE
        invariant i <= FirstFree(elts)
        invariant forall k :: 0 <= k < i ==> elts[k] != id
      {
        if elts[i] == id {
          return i;
        }
        i := i + 1;
      }
      return -1;
    }

    /** LST_check: 1 when id is stored before the first free slot, 0 otherwise. */
    method Check(id: int) returns (b: int)
      ensures b == 1 <==> id in Ids(elts)
      ensures b == 0 <==> id !in Ids(elts)
    {
      var i := GetIndice(id);
      if i == -1 {
        return 0;
      }
      return 1;
    }

    /** LST_addElement: put an absent id into the first free slot. */
    method AddElement(id: int)
      modifies this
      ensures elts == Added(old(elts), id)
    {
      var i := GetIndice(id);
      if i == -1 {
        var k := GetIndiceFree();
        elts := elts[k := id];
      }
    }

    /** LST_removeElement: shift the entries after id left by one and free the last one moved. */
    method RemoveElement(id: int)
      modifies this
      ensures elts == Removed(old(elts), id)
    {
      var i := GetIndice(id);
      if i != -1 {
        ghost var s, p := elts, i;
        while i < |elts| - 1 && elts[i] != FREE
          invariant 0 <= p <= i < |s| && |elts| == |s|
          invariant forall k :: p <= k < i ==> s[k] != FREE
          invariant forall k :: 0 <= k < p ==> elts[k] == s[k]
          invariant forall k :: p <= k < i ==> elts[k] == s[k + 1]
          invariant forall k :: i <= k < |s| ==> elts[k] == s[k]
        {
          elts := elts[i := elts[i + 1]];
          i := i + 1;
        }
        assert i == StopIndex(s, p);
        elts := elts[i := FREE];
        forall k | 0 <= k < |s|
          ensures elts[k] == Removed(s, id)[k]
        {
          RemovedAt(s, id, k);
        }
      }
    }

    /** LST_copy: a new list holding the first LST_nbElements entries. */
    method Copy() returns (c: IdList)
      ensures fresh(c) && c.elts == Copied(elts)
    {
      var n := NbElements();
      c := new IdList();
      c.elts := seq(n, _ => 0);
      for i := 0 to n
        invariant |c.elts| == n && c.elts[..i] == elts[..i]
      {
        c.elts := c.elts[i := elts[i]];
      }
    }

    /** LST_copyWithShift: a new list mapping each entry e of the used part to e - shifts[e]. */
    method CopyWithShift(shifts: seq<int>) returns (c: IdList)
      requires ShiftableBy(elts, shifts)
      ensures fresh(c) && c.elts == ShiftedCopy(elts, shifts)
    {
      var n := NbElements();
      c := new IdList();
      c.elts := seq(n, _ => 0);
      for i := 0 to n
        invariant |c.elts| == n
        invariant forall k :: 0 <= k < i ==> c.elts[k] == elts[k] - shifts[elts[k]]
      {
        c.elts := c.elts[i := elts[i] - shifts[elts[i]]];
      }
    }

    /** LST_addList: a copy of l1 to which every id of l2 is added in turn. Freeing l1 and l2 is
        memory management and is not modelled. */
    static method AddList(l1: IdList, l2: IdList) returns (out: IdList)
      ensures fresh(out) && out.elts == Merged(l1.elts, l2.elts)
    {
      out := l1.Copy();
      var i := 0;
      while i < |l2.elts| && l2.elts[i] != FREE
        invariant i <= FirstFree(l2.elts)
        invariant fresh(out) && out.elts == AddedAll(Copied(l1.elts), l2.elts[..i])
      {
        AddedAllSnoc(Copied(l1.elts), l2.elts[..i], l2.elts[i]);
        assert l2.elts[..i + 1] == l2.elts[..i] + [l2.elts[i]];
        out.AddElement(l2.elts[i]);
        i := i + 1;
      }
      assert l2.elts[..i] == Ids(l2.elts);
    }
  }

  /** Adding one more id at the end of the sequence of additions. */
  lemma {:induction false} AddedAllSnoc(s: seq<int>, xs: seq<int>, x: int)
    ensures AddedAll(s, xs + [x]) == Added(AddedAll(s, xs), x)
    decreases |xs|
  {
    if xs == [] {
      assert [x][1..] == [];
    } else {
      assert (xs + [x])[1..] == xs[1..] + [x];
      AddedAllSnoc(Added(s, xs[0]), xs[1..], x);
    }
  }
}
